/**
 The undo point of a restore episode (`begin_run`, agent/crates/sr-agent/src/restore/mod.rs):
 the runs of one restore share the snapshot taken before the first of them, however the live
 state changes meanwhile.
 */
module Undo {
  import opened Options
  import opened LiveTables
  import opened Store
  import opened Sessions
  import opened StoreRuns
  import opened StoreSafety

  /**
   A run of the store in which the clock never goes back and each run of this snapshot follows
   the last within five minutes.
   */
  predicate InTime(e: Event, snapshotId: int, last: int) {
    e.Begun? ==>
      && last <= e.at.looked <= e.at.started
      && (e.snapshotId == snapshotId ==> e.at.looked - last <= 300_000)
  }

  /** When the latest run of this snapshot started. */
  function LastStart(es: seq<Event>, snapshotId: int, last: int): int {
    if es == [] then last
    else LastStart(es[1..], snapshotId,
                    if es[0].Begun? && es[0].snapshotId == snapshotId then es[0].at.started else last)
  }

  ghost predicate AllInTime(es: seq<Event>, snapshotId: int, last: int) {
    es == [] || (InTime(es[0], snapshotId, last) && AllInTime(es[1..], snapshotId,
      if es[0].Begun? && es[0].snapshotId == snapshotId then es[0].at.started else last))
  }

  /** Every run that can still be looked back to has this undo point, and the last one is among them. */
  predicate Episode(runs: map<int, RunRow>, snapshotId: int, undo: int, since: int, last: int) {
    && since <= last
    && (forall r :: r in runs && runs[r].snapshotId == snapshotId && runs[r].undo.Some?
          ==> runs[r].startedAt < since - UNDO_EPISODE_MILLIS || runs[r].undo == Some(undo))
    && exists r :: r in runs && runs[r].snapshotId == snapshotId && runs[r].undo == Some(undo)
                && runs[r].startedAt == last
  }

  lemma Joins(runs: map<int, RunRow>, snapshotId: int, undo: int, since: int, last: int, now: int, pick: Option<int>)
    requires Episode(runs, snapshotId, undo, since, last)
    requires last <= now && now - last <= 300_000 && Shares(runs, snapshotId, now, pick)
    ensures pick.Some? && runs[pick.value].undo == Some(undo)
  {
    var r :| r in runs && runs[r].snapshotId == snapshotId && runs[r].undo == Some(undo) && runs[r].startedAt == last;
    assert r in Recent(runs, snapshotId, now);
  }

  lemma Recorded(runs: map<int, RunRow>, row: RunRow, snapshotId: int, undo: int, since: int, last: int)
    requires Episode(runs, snapshotId, undo, since, last)
    requires row.snapshotId != snapshotId || (row.undo == Some(undo) && row.startedAt >= last)
    ensures var runs' := runs[NextId(runs.Keys) := row];
      Episode(runs', snapshotId, undo, since, if row.snapshotId == snapshotId then row.startedAt else last)
  {
    var id := NextId(runs.Keys);
    var runs' := runs[id := row];
    assert id !in runs;
    var r :| r in runs && runs[r].snapshotId == snapshotId && runs[r].undo == Some(undo) && runs[r].startedAt == last;
    assert runs'[r] == runs[r] && runs'[id] == row;
  }

  lemma TakeKeepsRuns(p: Plain, kind: Kind, now: int)
    requires Whole(p)
    ensures Take(p, kind, now).0.runs == p.runs
  {
  }

  lemma EpisodeNext(p: Plain, e: Event, snapshotId: int, undo: int, since: int, last: int)
    requires Whole(p) && Possible(p.snapshots, p.runs, e)
    requires Episode(p.runs, snapshotId, undo, since, last) && InTime(e, snapshotId, last)
    ensures Episode(PlainNext(p, e).runs, snapshotId, undo, since,
                    if e.Begun? && e.snapshotId == snapshotId then e.at.started else last)
  {
    if e.Begun? {
      TakeKeepsRuns(p, PreRestore, e.at.copied);
      if e.snapshotId == snapshotId { Joins(p.runs, snapshotId, undo, since, last, e.at.looked, e.pick); }
      var row := RunRow(e.snapshotId, e.at.started, e.mode,
        if e.pick.Some? then p.runs[e.pick.value].undo else Take(p, PreRestore, e.at.copied).1);
      Recorded(p.runs, row, snapshotId, undo, since, last);
    }
  }

  lemma {:induction false} EpisodeRun(p: Plain, es: seq<Event>, snapshotId: int, undo: int, since: int, last: int)
    requires Whole(p) && PlainRunnable(p, es)
    requires Episode(p.runs, snapshotId, undo, since, last) && AllInTime(es, snapshotId, last)
    ensures Episode(PlainRun(p, es).runs, snapshotId, undo, since, LastStart(es, snapshotId, last))
    decreases es
  {
    if es == [] {
    } else {
      EpisodeNext(p, es[0], snapshotId, undo, since, last);
      PlainNextWhole(p, es[0]);
      EpisodeRun(PlainNext(p, es[0]), es[1..], snapshotId, undo, since,
                 if es[0].Begun? && es[0].snapshotId == snapshotId then es[0].at.started else last);
    }
  }

  /** The first run of an episode, with something live, takes the undo point. */
  lemma EpisodeStarts(p: Plain, e: Event)
    requires Whole(p) && Possible(p.snapshots, p.runs, e) && e.Begun? && e.pick.None?
    requires e.at.looked <= e.at.started && !NoneOpen(p.sessions[LIVE])
    ensures var q := PlainNext(p, e); var undo := NextId(p.snapshots.Keys);
      && Episode(q.runs, e.snapshotId, undo, e.at.looked, e.at.started)
      && Whole(q) && undo in q.snapshots && undo != LIVE && q.sessions[undo] == p.sessions[LIVE]
  {
    var q := PlainNext(p, e);
    PlainNextWhole(p, e);
    var undo := NextId(p.snapshots.Keys);
    var row := RunRow(e.snapshotId, e.at.started, e.mode, Some(undo));
    var id := NextId(p.runs.Keys);
    assert q.runs == p.runs[id := row];
    assert q.runs[id] == row;
    forall r | r in q.runs && q.runs[r].snapshotId == e.snapshotId && q.runs[r].undo.Some?
      ensures q.runs[r].startedAt < e.at.looked - UNDO_EPISODE_MILLIS || q.runs[r].undo == Some(undo)
    {
      if r != id { assert r !in Recent(p.runs, e.snapshotId, e.at.looked); }
    }
  }

  /** A further run of the same snapshot, beginning within the gap. */
  predicate FollowsOn(snapshots: map<int, SnapshotRow>, runs: map<int, RunRow>, first: Event, es: seq<Event>,
                      next: Event) {
    && first.Begun? && next.Begun? && next.snapshotId == first.snapshotId && Possible(snapshots, runs, next)
    && InTime(next, first.snapshotId, LastStart(es, first.snapshotId, first.at.started))
  }

  /**
   The undo point of an episode. After its first run, whatever happens to the live state and
   whatever other restores begin, every further run of the same snapshot that comes within five
   minutes of the last shares the first one's undo snapshot, and that snapshot is still the live
   state from just before the first run.
   */
  lemma OneUndoPoint(p: Plain, p1: Plain, first: Event, es: seq<Event>, q: Plain, next: Event)
    requires Whole(p) && Possible(p.snapshots, p.runs, first) && first.Begun? && first.pick.None?
    requires first.at.looked <= first.at.started && !NoneOpen(p.sessions[LIVE])
    requires p1 == PlainNext(p, first) && Whole(p1) && PlainRunnable(p1, es) && q == PlainRun(p1, es)
    requires AllInTime(es, first.snapshotId, first.at.started)
    requires forall e :: e in es ==> Spares(e, NextId(p.snapshots.Keys))
    requires FollowsOn(q.snapshots, q.runs, first, es, next)
    ensures var undo := NextId(p.snapshots.Keys);
      && next.pick.Some? && next.pick.value in q.runs && q.runs[next.pick.value].undo == Some(undo)
      && undo in q.sessions && q.sessions[undo] == Aged(p.sessions[LIVE], es)
  {
    var undo := NextId(p.snapshots.Keys);
    EpisodeStarts(p, first);
    EpisodeRun(p1, es, first.snapshotId, undo, first.at.looked, first.at.started);
    var last := LastStart(es, first.snapshotId, first.at.started);
    Joins(q.runs, first.snapshotId, undo, first.at.looked, last, next.at.looked, next.pick);
    SnapshotsAreFrozen(p1, es, undo);
  }

  lemma OnDisk(u: Tables, q: Plain)
    requires Refines(u, q)
    ensures u.runs == q.runs && u.snapshots == q.snapshots
    ensures forall id :: id in q.sessions ==> id in u.snapshots && Session(u, id) == q.sessions[id]
  {
  }

  lemma UndoCarried(live: Live, u: Tables, p: Plain, p1: Plain, q: Plain, first: Event, es: seq<Event>, next: Event)
    requires Whole(p) && p.sessions[LIVE] == live && Possible(p.snapshots, p.runs, first) && first.Begun?
    requires first.pick.None?
    requires first.at.looked <= first.at.started && !NoneOpen(live)
    requires p1 == PlainNext(p, first) && Whole(p1) && PlainRunnable(p1, es) && q == PlainRun(p1, es) && Refines(u, q)
    requires AllInTime(es, first.snapshotId, first.at.started)
             && forall e :: e in es ==> Spares(e, NextId(p.snapshots.Keys))
    requires FollowsOn(u.snapshots, u.runs, first, es, next)
    ensures var undo := NextId(p.snapshots.Keys);
      && next.pick.Some? && next.pick.value in u.runs && u.runs[next.pick.value].undo == Some(undo)
      && Session(u, undo) == Aged(live, es)
  {
    OnDisk(u, q);
    OneUndoPoint(p, p1, first, es, q, next);
  }

  /** The same on the tables themselves: the undo snapshot, opened, is the session as it was before the first run. */
  lemma UndoPointOnDisk(t: Tables, t1: Tables, first: Event, es: seq<Event>, next: Event)
    requires Sound(t) && Possible(t.snapshots, t.runs, first) && first.Begun? && first.pick.None?
    requires first.at.looked <= first.at.started && !NoneOpen(Session(t, LIVE))
    requires t1 == Next(t, first) && Runnable(t1, es) && AllInTime(es, first.snapshotId, first.at.started)
    requires forall e :: e in es ==> Spares(e, NextId(t.snapshots.Keys))
    requires FollowsOn(Run(t1, es).snapshots, Run(t1, es).runs, first, es, next)
    ensures var undo := NextId(t.snapshots.Keys); var u := Run(t1, es);
      && next.pick.Some? && next.pick.value in u.runs && u.runs[next.pick.value].undo == Some(undo)
      && Session(u, undo) == Aged(Session(t, LIVE), es)
  {
    AbstractWhole(t);
    RefinesNext(t, first);
    RunRefines(t1, es);
    var p := Abstract(t);
    var p1 := PlainNext(p, first);
    assert Abstract(t1) == p1;
    UndoCarried(Session(t, LIVE), Run(t1, es), p, p1, PlainRun(p1, es), first, es, next);
  }

  // ----- Every run of the episode -----

  /** The runs of this snapshot that were not there before all have this undo point. */
  predicate ShareSince(before: set<int>, runs: map<int, RunRow>, snapshotId: int, undo: int) {
    forall r :: r in runs && r !in before && runs[r].snapshotId == snapshotId ==> runs[r].undo == Some(undo)
  }

  /** Along these events, beginning a run of this snapshot takes no snapshot and touches no session. */
  ghost predicate NoneTaken(p: Plain, es: seq<Event>, snapshotId: int)
    requires Whole(p) && PlainRunnable(p, es)
    decreases es
  {
    es == [] ||
    (PlainNextWhole(p, es[0]);
     && (es[0].Begun? && es[0].snapshotId == snapshotId
         ==> PlainNext(p, es[0]).snapshots == p.snapshots && PlainNext(p, es[0]).sessions == p.sessions)
     && NoneTaken(PlainNext(p, es[0]), es[1..], snapshotId))
  }

  lemma SharedNext(p: Plain, e: Event, before: set<int>, snapshotId: int, undo: int, since: int, last: int)
    requires Whole(p) && Possible(p.snapshots, p.runs, e)
    requires Episode(p.runs, snapshotId, undo, since, last) && InTime(e, snapshotId, last)
    requires ShareSince(before, p.runs, snapshotId, undo)
    ensures var q := PlainNext(p, e);
      && ShareSince(before, q.runs, snapshotId, undo)
      && (e.Begun? && e.snapshotId == snapshotId ==> q.snapshots == p.snapshots && q.sessions == p.sessions)
  {
    if e.Begun? {
      TakeKeepsRuns(p, PreRestore, e.at.copied);
      if e.snapshotId == snapshotId { Joins(p.runs, snapshotId, undo, since, last, e.at.looked, e.pick); }
    } else {
      assert PlainNext(p, e).runs == p.runs;
    }
  }

  lemma {:induction false} SharedRun(p: Plain, es: seq<Event>, before: set<int>, snapshotId: int, undo: int,
                                     since: int, last: int)
    requires Whole(p) && PlainRunnable(p, es)
    requires Episode(p.runs, snapshotId, undo, since, last) && AllInTime(es, snapshotId, last)
    requires ShareSince(before, p.runs, snapshotId, undo)
    ensures ShareSince(before, PlainRun(p, es).runs, snapshotId, undo)
    ensures NoneTaken(p, es, snapshotId)
    decreases es
  {
    if es == [] {
      assert PlainRun(p, es) == p;
    } else {
      SharedNext(p, es[0], before, snapshotId, undo, since, last);
      EpisodeNext(p, es[0], snapshotId, undo, since, last);
      PlainNextWhole(p, es[0]);
      SharedRun(PlainNext(p, es[0]), es[1..], before, snapshotId, undo, since,
                if es[0].Begun? && es[0].snapshotId == snapshotId then es[0].at.started else last);
    }
  }

  /**
   Over a whole episode, however other restores and the live state come in between: every run of
   the snapshot on record since its first one has the first one's undo snapshot, and none after
   the first takes a snapshot.
   */
  lemma EveryRunShares(p: Plain, p1: Plain, first: Event, es: seq<Event>)
    requires Whole(p) && Possible(p.snapshots, p.runs, first) && first.Begun? && first.pick.None?
    requires first.at.looked <= first.at.started && !NoneOpen(p.sessions[LIVE])
    requires p1 == PlainNext(p, first) && Whole(p1) && PlainRunnable(p1, es)
    requires AllInTime(es, first.snapshotId, first.at.started)
    ensures ShareSince(p.runs.Keys, PlainRun(p1, es).runs, first.snapshotId, NextId(p.snapshots.Keys))
    ensures NoneTaken(p1, es, first.snapshotId)
  {
    EpisodeStarts(p, first);
    TakeKeepsRuns(p, PreRestore, first.at.copied);
    SharedRun(p1, es, p.runs.Keys, first.snapshotId, NextId(p.snapshots.Keys), first.at.looked, first.at.started);
  }

  /** Past the gap the episode is over: the next run takes a new undo point, if anything is live. */
  lemma EpisodeEnds(p: Plain, e: Event)
    requires Whole(p) && Possible(p.snapshots, p.runs, e) && e.Begun?
    requires forall r :: r in p.runs && p.runs[r].snapshotId == e.snapshotId
               ==> p.runs[r].startedAt < e.at.looked - 300_000
    ensures e.pick.None?
    ensures Take(p, PreRestore, e.at.copied).1.Some? <==> !NoneOpen(p.sessions[LIVE])
    ensures Take(p, PreRestore, e.at.copied).1.Some? ==> Take(p, PreRestore, e.at.copied).1.value !in p.snapshots
  {
    assert Recent(p.runs, e.snapshotId, e.at.looked) == {};
  }

  /**
   An episode that begins with nothing live has no undo point to share: its second run takes
   one of its own, after the first has already changed the live state.
   */
  lemma EmptyStartIsNotShared(p: Plain, first: Event, apps: map<string, AppRow>, next: Event)
    requires Whole(p) && Possible(p.snapshots, p.runs, first) && first.Begun? && first.pick.None?
    requires NoneOpen(p.sessions[LIVE]) && |apps| > 0
    requires next.Begun? && next.snapshotId == first.snapshotId && next.at.looked >= first.at.looked
    requires Whole(PlainNext(p, first)) && Whole(PlainNext(PlainNext(p, first), Watched(apps)))
    requires var q := PlainNext(PlainNext(p, first), Watched(apps)); Possible(q.snapshots, q.runs, next)
    ensures var q := PlainNext(PlainNext(p, first), Watched(apps));
      var (q', undo) := Take(q, PreRestore, next.at.copied);
      next.pick.None? && undo.Some? && q'.sessions[undo.value].apps == apps != p.sessions[LIVE].apps
  {
    var q := PlainNext(PlainNext(p, first), Watched(apps));
    var row := RunRow(first.snapshotId, first.at.started, first.mode, None);
    var id := NextId(p.runs.Keys);
    assert q.runs == p.runs[id := row];
    forall r ensures r !in Recent(q.runs, next.snapshotId, next.at.looked) {
      assert r !in Recent(p.runs, first.snapshotId, first.at.looked);
    }
    assert |q.sessions[LIVE].apps| > 0;
  }
}
