/**
 The exact limits of what the capture path promises: which starting rows last-write-wins
 needs, which evictions lose something, and when a pending delta is left without a timer
 (extension/src/background/outbox.ts). Also: the flush of Outbox.dfy is a run of the machine,
 so everything proved of the machine holds of it.
 */
module PipelineLimits {
  import opened Options
  import opened Protocol
  import opened LiveTables
  import opened Coalescing
  import opened Outbox
  import opened Pipeline

  ghost predicate Steps(trace: seq<System>, actions: seq<Action>, src: Source) {
    && |trace| == |actions| + 1
    && forall i | 0 <= i < |actions| :: Next(trace[i], actions[i], trace[i+1], src)
  }

  lemma StepsSnoc(trace: seq<System>, actions: seq<Action>, a: Action, s: System, src: Source)
    requires Steps(trace, actions, src) && Next(trace[|actions|], a, s, src)
    ensures Steps(trace + [s], actions + [a], src)
  {
    var t, b := trace + [s], actions + [a];
    forall i | 0 <= i < |b| ensures Next(t[i], b[i], t[i+1], src) {
      if i < |actions| { assert Next(trace[i], actions[i], trace[i+1], src); }
    }
  }

  // ----- The starting rows -----

  /** In every run from these rows, every quiet moment shows the fold of what was enqueued. */
  ghost predicate AlwaysLastWrite(l0: Live, scope: Scope, src: Source) {
    forall trace: seq<System>, actions: seq<Action>, n: nat ::
      Run(trace, actions, src) && Careful(trace, actions, scope, src)
      && trace[0].live == l0 && Consistent(actions, scope)
      && n < |trace| && Quiescent(trace[n])
      ==> EraseExpiry(trace[n].live) == EraseExpiry(Fold(trace[n].base, trace[n].log, src))
  }

  function BodyOf(d: Delta): StateBody {
    match d
    case Win(w) => StateBody([w], [], [])
    case Tab(t, _) => StateBody([], [t], [])
    case Grp(g) => StateBody([], [], [g])
  }

  lemma ListsOne<V(!new)>(k: string, v: V)
    ensures Lists([v], map[k := v]) && Lists<V>([], map[])
  {
    assert ListsBy([v], map[k := v], [k]);
    assert ListsBy<V>([], map[], []);
  }

  const TAB := TabDelta(Upsert, "", "", None, None, None, None, None, false, false, false, None, false, false)
  const WINDOW := WindowDelta(Upsert, "", false, None, None, None, None, None, false)
  const GROUP := GroupDelta(Upsert, "", "", None, None, false)

  lemma SplitOne(d: Delta)
    ensures IsSplit([BodyOf(d)], Put(EMPTY_STATE, d))
  {
    match d
    case Win(w) =>
      ListsOne(w.windowId, w);
      ListsOne<TabDelta>("", TAB);
      ListsOne<GroupDelta>("", GROUP);
      assert Batches([w], [], []) == [BodyOf(d)];
    case Tab(t, _) =>
      ListsOne(t.tabKey, t);
      ListsOne<WindowDelta>("", WINDOW);
      ListsOne<GroupDelta>("", GROUP);
      assert Slices([t]) == [StateBody([], [t], [])];
      assert Batches([], [t], []) == [BodyOf(d)];
    case Grp(g) =>
      ListsOne(g.groupKey, g);
      ListsOne<WindowDelta>("", WINDOW);
      ListsOne<TabDelta>("", TAB);
      assert Batches([], [], [g]) == [BodyOf(d)];
  }

  lemma BodyOfCell(c: Cell, d: Delta, src: Source)
    requires Unstamp(d) == d
    ensures FoldCell(c, BodyDeltas(BodyOf(d)), KeyOf(d), src) == Step(c, d, src)
  {
    assert BodyDeltas(BodyOf(d)) == [d];
    assert [d][..0] == [];
  }

  // Single steps as functions, to build concrete runs with.

  function AfterEnqueue(s: System, d: Delta): System {
    var p := Put(s.pending, d);
    s.(pending := p, mirror := p, log := s.log + [Unstamp(d)],
       timer := if Count(p) >= MAX_PENDING_BEFORE_FLUSH then s.timer else true,
       flight := if InSending(s) then Some(s.flight.value.(touched := true)) else s.flight)
  }

  function AfterBegin(s: System, batches: seq<StateBody>): System {
    s.(flight := Some(Sending(s.pending, batches, false)), pending := EMPTY_STATE, timer := false)
  }

  function AfterSend(s: System, src: Source): System
    requires InSending(s) && s.flight.value.todo != []
  {
    var body := s.flight.value.todo[0];
    s.(flight := Some(s.flight.value.(todo := s.flight.value.todo[1..])),
       live := Deliver(s.live, body, Stamps(body), src))
  }

  function AfterAll(s: System): System { s.(flight := Some(Saving(false)), mirror := s.pending) }

  function AfterEnd(s: System): System
    requires s.flight.Some? && s.flight.value.Saving?
  {
    s.(flight := None, timer := s.timer || s.flight.value.retry)
  }

  lemma Fresh(l0: Live) returns (s: System)
    ensures Init(s) && s == System(EMPTY_STATE, None, false, EMPTY_STATE, l0, l0, [])
  {
    s := System(EMPTY_STATE, None, false, EMPTY_STATE, l0, l0, []);
  }

  lemma EnqueueOnto(trace: seq<System>, actions: seq<Action>, d: Delta, src: Source)
    requires Steps(trace, actions, src)
    ensures Steps(trace + [AfterEnqueue(trace[|actions|], d)], actions + [Enqueue(d)], src)
  {
    StepsSnoc(trace, actions, Enqueue(d), AfterEnqueue(trace[|actions|], d), src);
  }

  lemma BeginOnto(trace: seq<System>, actions: seq<Action>, batches: seq<StateBody>, src: Source)
    requires Steps(trace, actions, src)
    requires var s := trace[|actions|]; s.flight.None? && s.pending != EMPTY_STATE && IsSplit(batches, s.pending)
    ensures Steps(trace + [AfterBegin(trace[|actions|], batches)], actions + [BeginFlush(batches)], src)
  {
    StepsSnoc(trace, actions, BeginFlush(batches), AfterBegin(trace[|actions|], batches), src);
  }

  lemma SendOnto(trace: seq<System>, actions: seq<Action>, src: Source)
    requires Steps(trace, actions, src)
    requires var s := trace[|actions|]; InSending(s) && s.flight.value.todo != []
    ensures var s := trace[|actions|];
      Steps(trace + [AfterSend(s, src)], actions + [SendOk(Stamps(s.flight.value.todo[0]))], src)
  {
    var s := trace[|actions|];
    StepsSnoc(trace, actions, SendOk(Stamps(s.flight.value.todo[0])), AfterSend(s, src), src);
  }

  lemma AllOnto(trace: seq<System>, actions: seq<Action>, src: Source)
    requires Steps(trace, actions, src)
    requires var s := trace[|actions|]; InSending(s) && s.flight.value.todo == []
    ensures Steps(trace + [AfterAll(trace[|actions|])], actions + [AllSent], src)
  {
    StepsSnoc(trace, actions, AllSent, AfterAll(trace[|actions|]), src);
  }

  /** A step of the timer or of a flush: nothing from outside. */
  predicate Sends(a: Action) { !a.Enqueue? && !a.Evict? && !a.Reconcile? && !a.Others? }

  /** Sends the one delta that is pending. */
  lemma FlushOne(trace: seq<System>, actions: seq<Action>, d: Delta, src: Source)
    returns (trace': seq<System>, actions': seq<Action>)
    requires Steps(trace, actions, src)
    requires var s := trace[|actions|]; s.flight.None? && s.pending == Put(EMPTY_STATE, d)
    ensures Steps(trace', actions', src) && |actions'| == |actions| + 3
    ensures trace <= trace' && (forall a :: a in actions' ==> a in actions || Sends(a))
    ensures var s, s' := trace[|actions|], trace'[|actions'|];
      && Quiescent(s') && s'.base == s.base && s'.log == s.log
      && s'.live == Deliver(s.live, BodyOf(d), Stamps(BodyOf(d)), src)
  {
    PutOne(d);
    SplitOne(d);
    var batches := [BodyOf(d)];
    BeginOnto(trace, actions, batches, src);
    var s1 := AfterBegin(trace[|actions|], batches);
    var t1, a1 := trace + [s1], actions + [BeginFlush(batches)];
    trace', actions' := SendOne(t1, a1, BodyOf(d), src);
  }

  /** The one batch in flight goes out. */
  lemma SendOne(trace: seq<System>, actions: seq<Action>, body: StateBody, src: Source)
    returns (trace': seq<System>, actions': seq<Action>)
    requires Steps(trace, actions, src)
    requires var s := trace[|actions|]; InSending(s) && s.flight.value.todo == [body]
    ensures Steps(trace', actions', src) && |actions'| == |actions| + 2
    ensures trace <= trace' && (forall a :: a in actions' ==> a in actions || Sends(a))
    ensures var s, s' := trace[|actions|], trace'[|actions'|];
      && !InSending(s') && s'.pending == s.pending && s'.base == s.base && s'.log == s.log
      && s'.live == Deliver(s.live, body, Stamps(body), src)
  {
    SendOnto(trace, actions, src);
    var s := AfterSend(trace[|actions|], src);
    var t1, a1 := trace + [s], actions + [SendOk(Stamps(body))];
    AllOnto(t1, a1, src);
    trace', actions' := t1 + [AfterAll(s)], a1 + [AllSent];
  }

  /** Two deltas for one key, enqueued together and sent: only the later reaches the agent. */
  lemma TwoThenFlush(l0: Live, earlier: Delta, later: Delta, src: Source)
    returns (trace: seq<System>, actions: seq<Action>)
    requires KeyOf(earlier) == KeyOf(later) && Unstamp(earlier) == earlier && Unstamp(later) == later
    ensures Run(trace, actions, src) && trace[0].live == l0 && Quiescent(trace[|actions|])
    ensures trace[|actions|].base == l0 && trace[|actions|].log == [earlier, later]
    ensures forall a :: a in actions ==> a == Enqueue(earlier) || a == Enqueue(later) || Sends(a)
    ensures trace[|actions|].live == Deliver(l0, BodyOf(later), Stamps(BodyOf(later)), src)
  {
    trace, actions := TwoEnqueued(l0, earlier, later, src);
    trace, actions := FlushOne(trace, actions, later, src);
  }

  lemma TwoEnqueued(l0: Live, earlier: Delta, later: Delta, src: Source)
    returns (trace: seq<System>, actions: seq<Action>)
    requires KeyOf(earlier) == KeyOf(later) && Unstamp(earlier) == earlier && Unstamp(later) == later
    ensures Run(trace, actions, src) && actions == [Enqueue(earlier), Enqueue(later)] && trace[0].live == l0
    ensures var s := trace[2];
      && s.live == s.base == l0 && s.log == [earlier, later]
      && s.flight.None? && s.pending == Put(EMPTY_STATE, later)
  {
    var s := Fresh(l0);
    trace, actions := [s], [];
    EnqueueOnto(trace, actions, earlier, src);
    s := AfterEnqueue(s, earlier);
    trace, actions := trace + [s], actions + [Enqueue(earlier)];
    EnqueueOnto(trace, actions, later, src);
    s := AfterEnqueue(s, later);
    trace, actions := trace + [s], actions + [Enqueue(later)];
    PutTwice(earlier, later);
  }

  lemma PutTwice(earlier: Delta, later: Delta)
    requires KeyOf(earlier) == KeyOf(later)
    ensures Put(Put(EMPTY_STATE, earlier), later) == Put(EMPTY_STATE, later)
  {
  }

  lemma LastWriteNeedsFit(l0: Live, k: Key, scope: Scope, src: Source)
    requires k in scope.keys && !Fits(Read(l0, k), k, scope.flag, src)
    ensures !AlwaysLastWrite(l0, scope, src)
  {
    var c := Erase(Read(l0, k));
    var earlier, later := OnlyIfItFits(c, k, scope.flag, src);
    earlier, later := Unstamped(c, earlier, later, scope.flag, src);
    var trace, actions := TwoThenFlush(l0, earlier, later, src);
    TwoAreCareful(trace, actions, earlier, later, scope, src);
    var last := trace[|actions|];
    assert Now(last, k) != Wanted(last, k, src) by {
      DeliverCell(l0, BodyOf(later), Stamps(BodyOf(later)), k, src);
      BodyOfCell(c, later, src);
      FoldTwo(c, earlier, later, k, src);
    }
    assert UnstampAll([earlier, later]) == [earlier, later];
    OneCellDiffers(last, k, src);
  }

  lemma TwoAreCareful(trace: seq<System>, actions: seq<Action>, earlier: Delta, later: Delta, scope: Scope, src: Source)
    requires |trace| == |actions| + 1 && Within(earlier, scope) && Within(later, scope)
    requires forall a :: a in actions ==> a == Enqueue(earlier) || a == Enqueue(later) || Sends(a)
    ensures Consistent(actions, scope) && Careful(trace, actions, scope, src)
  {
    forall i | 0 <= i < |actions| ensures !actions[i].Evict? && !actions[i].Reconcile? && !actions[i].Others? {
      assert actions[i] in actions;
    }
  }

  lemma OneCellDiffers(s: System, k: Key, src: Source)
    requires UnstampAll(s.log) == s.log && Now(s, k) != Wanted(s, k, src)
    ensures EraseExpiry(s.live) != EraseExpiry(Fold(s.base, s.log, src))
  {
    WantedIsFold(s, k, src);
    ReadErase(s.live, k);
  }

  lemma WantedIsFold(s: System, k: Key, src: Source)
    requires UnstampAll(s.log) == s.log
    ensures Read(EraseExpiry(Fold(s.base, s.log, src)), k) == Wanted(s, k, src)
  {
    ReadErase(Fold(s.base, s.log, src), k);
    ReadFold(s.base, s.log, k, src);
    EraseFoldCell(Read(s.base, k), s.log, k, src);
  }

  lemma FoldTwo(c: Cell, earlier: Delta, later: Delta, k: Key, src: Source)
    requires KeyOf(earlier) == KeyOf(later) == k
    ensures FoldCell(c, [earlier, later], k, src) == Step(Step(c, earlier, src), later, src)
  {
    var log := [earlier, later];
    assert log[..1] == [earlier] && log[..1][..0] == [];
    assert FoldCell(c, log[..1], k, src) == Step(FoldCell(c, [], k, src), earlier, src);
  }

  lemma Unstamped(c: Cell, earlier: Delta, later: Delta, flag: Flags, src: Source) returns (e: Delta, l: Delta)
    requires KeyOf(earlier) == KeyOf(later) && Follows(earlier, flag) && Follows(later, flag) && Erase(c) == c
    requires Step(Step(c, earlier, src), later, src) != Step(c, later, src)
    ensures KeyOf(e) == KeyOf(l) == KeyOf(later) && Follows(e, flag) && Follows(l, flag)
    ensures Unstamp(e) == e && Unstamp(l) == l
    ensures Step(Step(c, e, src), l, src) != Step(c, l, src)
  {
    e, l := Unstamp(earlier), Unstamp(later);
  }

  /**
   Over all runs whose events name only these keys, last write wins from exactly those rows in
   which these keys fit: a window among them carries the reporting browser, a tab is not in the
   table its private flag excludes, and has no private row while capture is off.
   */
  lemma LastWriteExactly(l0: Live, scope: Scope, src: Source)
    ensures AlwaysLastWrite(l0, scope, src) <==> FitsLive(l0, scope, src)
  {
    if FitsLive(l0, scope, src) {
      forall trace: seq<System>, actions: seq<Action>, n: nat
        | Run(trace, actions, src) && Careful(trace, actions, scope, src)
          && trace[0].live == l0 && Consistent(actions, scope)
          && n < |trace| && Quiescent(trace[n])
        ensures EraseExpiry(trace[n].live) == EraseExpiry(Fold(trace[n].base, trace[n].log, src))
      {
        ReconcileThenLastWrite(trace, actions, scope, src, n);
      }
    } else {
      var k :| k in scope.keys && !Fits(Read(l0, k), k, scope.flag, src);
      LastWriteNeedsFit(l0, k, scope, src);
    }
  }

  // ----- Evictions -----

  /**
   At any moment of any run an eviction keeps every enqueued delta, unless a send is under way,
   an event came during the flush, and some batch still to go carries a delta that is neither
   pending again nor already shown by the agent.
   */
  lemma EvictionExactly(trace: seq<System>, actions: seq<Action>, scope: Scope, src: Source, n: nat)
    requires Run(trace, actions, src) && n < |trace| && Careful(trace, actions, scope, src)
    requires Consistent(actions, scope) && FitsLive(trace[0].live, scope, src)
    ensures KeepsAll(trace[n], src) <==> Harmless(trace[n], src)
  {
    RunInv(trace, actions, scope, src, n);
    HarmlessExactly(trace[n], scope, src);
  }

  lemma {:induction false} AllDeltasSnoc(bodies: seq<StateBody>, body: StateBody)
    ensures AllDeltas(bodies + [body]) == AllDeltas(bodies) + BodyDeltas(body)
  {
    if bodies == [] {
      assert [] + [body] == [body] && [body][1..] == [];
    } else {
      AllDeltasSnoc(bodies[1..], body);
      assert (bodies + [body])[1..] == bodies[1..] + [body];
    }
  }

  lemma {:induction false} DeliverAllCell(l: Live, bodies: seq<StateBody>, k: Key, src: Source)
    ensures Erase(Read(DeliverAll(l, bodies, src), k)) == FoldCell(Erase(Read(l, k)), AllDeltas(bodies), k, src)
  {
    if bodies != [] {
      var n := |bodies| - 1;
      DeliverAllCell(l, bodies[..n], k, src);
      DeliverCell(DeliverAll(l, bodies[..n], src), bodies[n], Stamps(bodies[n]), k, src);
      AllDeltasSnoc(bodies[..n], bodies[n]);
      assert bodies[..n] + [bodies[n]] == bodies;
      FoldCellConcat(Erase(Read(l, k)), AllDeltas(bodies[..n]), BodyDeltas(bodies[n]), k, src);
    }
  }

  /** Sending everything that is pending, undisturbed, brings each key to what is pending for it. */
  lemma Drained(s: System, batches: seq<StateBody>, k: Key, scope: Scope, src: Source)
    requires IsSplit(batches, s.pending) && Filed(s.pending, scope) && FitsIn(Now(s, k), k, scope, src)
    ensures Erase(Read(DeliverAll(s.live, batches, src), k)) == Later(Now(s, k), s.pending, k, src)
  {
    DeliverAllCell(s.live, batches, k, src);
    SplitCell(Now(s, k), batches, s.pending, k, scope, src);
  }

  /** From between flushes, everything that is pending goes out undisturbed. */
  lemma DrainFrom(s: System, k: Key, scope: Scope, src: Source) returns (trace: seq<System>, actions: seq<Action>)
    requires s.flight.None? && Filed(s.pending, scope) && FitsIn(Now(s, k), k, scope, src)
    ensures Steps(trace, actions, src) && trace[0] == s && forall a :: a in actions ==> Sends(a)
    ensures var last := trace[|actions|];
      && Quiescent(last) && last.base == s.base && last.log == s.log
      && Now(last, k) == Later(Now(s, k), s.pending, k, src)
  {
    trace, actions := [s], [];
    if s.pending != EMPTY_STATE {
      var batches := SomeSplit(s.pending);
      trace, actions := FlushAll(s, batches, src);
      Drained(s, batches, k, scope, src);
    }
  }

  function AfterEvict(s: System): System {
    s.(flight := None, pending := s.mirror, timer := Count(s.mirror) > 0)
  }

  lemma HarmShows(s: System, scope: Scope, src: Source) returns (later: seq<System>, after: seq<Action>)
    requires Inv(s, scope, src) && UnstampAll(s.log) == s.log && !Harmless(s, src)
    ensures Steps(later, after, src) && later[0] == AfterEvict(s) && forall a :: a in after ==> Sends(a)
    ensures var last := later[|after|];
      Quiescent(last) && EraseExpiry(last.live) != EraseExpiry(Fold(last.base, last.log, src))
  {
    HarmlessExactly(s, scope, src);
    var k :| Later(Now(s, k), s.mirror, k, src) != Wanted(s, k, src);
    assert CellInv(s, k, scope, src);
    later, after := DrainFrom(AfterEvict(s), k, scope, src);
    OneCellDiffers(later[|after|], k, src);
  }

  lemma EvictOnto(trace: seq<System>, actions: seq<Action>, later: seq<System>, after: seq<Action>, src: Source)
    requires Run(trace, actions, src) && Steps(later, after, src) && later[0] == AfterEvict(trace[|actions|])
    ensures Run(trace + later, actions + [Evict] + after, src)
  {
    var e := later[0];
    StepsSnoc(trace, actions, Evict, e, src);
    var whole, all := Joined(trace + [e], actions + [Evict], later, after, src);
    assert whole == trace + later;
  }

  /**
   A harmful eviction does lose something: left undisturbed, the next worker sends all it has,
   and then the agent's rows are not the fold of what was enqueued.
   */
  lemma HarmIsSeen(trace: seq<System>, actions: seq<Action>, scope: Scope, src: Source)
    returns (later: seq<System>, after: seq<Action>)
    requires Run(trace, actions, src) && Careful(trace, actions, scope, src)
    requires Consistent(actions, scope) && FitsLive(trace[0].live, scope, src)
    requires !Harmless(trace[|actions|], src)
    ensures Run(trace + later, actions + [Evict] + after, src) && |later| == |after| + 1
    ensures forall a :: a in after ==> Sends(a)
    ensures var last := later[|after|];
      Quiescent(last) && EraseExpiry(last.live) != EraseExpiry(Fold(last.base, last.log, src))
  {
    var s := trace[|actions|];
    RunInv(trace, actions, scope, src, |actions|);
    LogUnstamped(trace, actions, src, |actions|);
    later, after := HarmShows(s, scope, src);
    EvictOnto(trace, actions, later, after, src);
  }

  lemma Joined(t1: seq<System>, a1: seq<Action>, t2: seq<System>, a2: seq<Action>, src: Source)
    returns (trace: seq<System>, actions: seq<Action>)
    requires Steps(t1, a1, src) && Steps(t2, a2, src) && t1[|a1|] == t2[0]
    ensures trace == t1 + t2[1..] && actions == a1 + a2 && Steps(trace, actions, src)
    ensures trace[|actions|] == t2[|a2|]
  {
    trace, actions := t1 + t2[1..], a1 + a2;
    forall i | 0 <= i < |actions| ensures Next(trace[i], actions[i], trace[i+1], src) {
      if i < |a1| {
        assert Next(t1[i], a1[i], t1[i+1], src);
      } else {
        assert Next(t2[i-|a1|], a2[i-|a1|], t2[i-|a1|+1], src);
      }
    }
  }

  lemma SomeSplit(p: PendingState) returns (batches: seq<StateBody>)
    ensures IsSplit(batches, p)
  {
    var windows := Listed(p.windows);
    var tabs := Listed(p.tabs);
    var groups := Listed(p.groups);
    batches := Batches(windows, tabs, groups);
  }

  lemma {:induction false} Listed<V(!new)>(m: map<string, V>) returns (vs: seq<V>)
    ensures Lists(vs, m)
    decreases |m|
  {
    var ks := Keys(m, m.Keys);
    vs := seq(|ks|, i requires 0 <= i < |ks| => m[ks[i]]);
    assert ListsBy(vs, m, ks);
  }

  lemma {:induction false} Keys<V(!new)>(m: map<string, V>, left: set<string>) returns (ks: seq<string>)
    requires left <= m.Keys
    ensures |ks| == |left| && (forall i :: 0 <= i < |ks| ==> ks[i] in m) && forall k :: k in ks <==> k in left
    ensures left == m.Keys ==> |ks| == |m|
    decreases |left|
  {
    assert |m.Keys| == |m|;
    if left == {} {
      ks := [];
    } else {
      var k :| k in left;
      var rest := Keys(m, left - {k});
      ks := [k] + rest;
    }
  }

  // ----- The timer -----

  /** A flush that failed arms a timer once its storage write is done. */
  predicate Retrying(s: System) { s.flight == Some(Saving(true)) }

  /** Something is pending, no timer will send it, and no failed flush is about to arm one. */
  predicate Stranded(s: System) { s.pending != EMPTY_STATE && !s.timer && !Retrying(s) }

  /** The timer runs out while a flush is under way, which only clears it. */
  ghost predicate Strands(s: System, a: Action) {
    a.TimerRunsOut? && s.flight.Some? && !Retrying(s) && s.pending != EMPTY_STATE
  }

  /** A later event below the limit, a failed send, a new flush or an eviction. */
  ghost predicate Rescues(s: System, a: Action) {
    match a
    case Enqueue(d) => Count(Put(s.pending, d)) < MAX_PENDING_BEFORE_FLUSH
    case SendFails(_, _) => true
    case BeginFlush(_) => true
    case Evict => true
    case _ => false
  }

  lemma StrandedStep(s: System, a: Action, s': System, src: Source)
    requires Next(s, a, s', src)
    ensures Stranded(s') <==> Strands(s, a) || (Stranded(s) && !Rescues(s, a))
  {
    match a
    case Enqueue(d) => if s.pending == EMPTY_STATE { PutOne(d); } else { PutSome(s.pending, d); }
    case Evict => if s'.pending != EMPTY_STATE { NonEmptyCounts(s'.pending); }
    case SendFails(_, _) =>
    case _ =>
  }

  lemma PutOne(d: Delta)
    ensures Count(Put(EMPTY_STATE, d)) == 1
  {
  }

  lemma PutSome(p: PendingState, d: Delta)
    ensures Put(p, d) != EMPTY_STATE
  {
    assert DeltaAt(Put(p, d), KeyOf(d)).Some? by { PutAt(p, d, KeyOf(d)); }
  }

  /** At step m the timer ran out during a flush with something pending, and nothing before step n made up for it. */
  ghost predicate TimerLost(trace: seq<System>, actions: seq<Action>, m: nat, n: nat)
    requires |trace| == |actions| + 1 && n < |trace|
  {
    m < n && Strands(trace[m], actions[m]) && forall j :: m < j < n ==> !Rescues(trace[j], actions[j])
  }

  ghost predicate SomeTimerLost(trace: seq<System>, actions: seq<Action>, n: nat)
    requires |trace| == |actions| + 1 && n < |trace|
  {
    exists m: nat :: TimerLost(trace, actions, m, n)
  }

  lemma LostStep(trace: seq<System>, actions: seq<Action>, n: nat)
    requires |trace| == |actions| + 1 && n < |actions|
    ensures SomeTimerLost(trace, actions, n + 1)
            <==> Strands(trace[n], actions[n]) || (SomeTimerLost(trace, actions, n) && !Rescues(trace[n], actions[n]))
  {
    if Strands(trace[n], actions[n]) {
      assert TimerLost(trace, actions, n, n + 1);
    } else if SomeTimerLost(trace, actions, n) && !Rescues(trace[n], actions[n]) {
      var m: nat :| TimerLost(trace, actions, m, n);
      assert TimerLost(trace, actions, m, n + 1);
    }
    var after := n + 1;
    if m: nat :| TimerLost(trace, actions, m, after) {
      assert m < n ==> TimerLost(trace, actions, m, n);
    }
  }

  ghost predicate TimerMoves(trace: seq<System>, actions: seq<Action>, n: nat)
    requires |trace| == |actions| + 1 && n < |actions|
  {
    Stranded(trace[n+1]) <==> Strands(trace[n], actions[n]) || (Stranded(trace[n]) && !Rescues(trace[n], actions[n]))
  }

  lemma {:induction false} StrandedSince(trace: seq<System>, actions: seq<Action>, n: nat)
    requires |trace| == |actions| + 1 && n < |trace| && !Stranded(trace[0])
    requires forall i: nat :: i < |actions| ==> TimerMoves(trace, actions, i)
    ensures Stranded(trace[n]) <==> SomeTimerLost(trace, actions, n)
  {
    if n > 0 {
      StrandedSince(trace, actions, n - 1);
      assert TimerMoves(trace, actions, n - 1);
      LostStep(trace, actions, n - 1);
    }
  }

  /**
   In every run, something pending is left without a timer exactly when a timer ran out during
   a flush while something was pending, and no event below the limit, failed send, new flush or
   eviction came after.
   */
  lemma StrandedExactly(trace: seq<System>, actions: seq<Action>, src: Source, n: nat)
    requires Run(trace, actions, src) && n < |trace|
    ensures Stranded(trace[n]) <==> SomeTimerLost(trace, actions, n)
  {
    forall i: nat | i < |actions| ensures TimerMoves(trace, actions, i) {
      StrandedStep(trace[i], actions[i], trace[i+1], src);
    }
    StrandedSince(trace, actions, n);
  }

  /**
   After every flush that sent all it had, while its storage write is waiting, any delta that
   then arrives is left with no timer if its own runs out before the write is done.
   */
  lemma TimerCanBeLost(s: System, d: Delta, src: Source) returns (trace: seq<System>)
    requires s.flight == Some(Saving(false)) && s.pending == EMPTY_STATE
    ensures Steps(trace, [Enqueue(d), TimerRunsOut, EndFlush], src) && trace[0] == s
    ensures trace[3].flight.None? && trace[3].pending == Put(EMPTY_STATE, d) && Stranded(trace[3])
  {
    PutOne(d);
    PutSome(EMPTY_STATE, d);
    var s1 := AfterEnqueue(s, d);
    var s2 := s1.(timer := false);
    trace := [s, s1, s2, AfterEnd(s2)];
  }

  // ----- The flush of the outbox -----

  function DeliverAll(l: Live, bodies: seq<StateBody>, src: Source): Live {
    if bodies == [] then l
    else
      var n := |bodies| - 1;
      Deliver(DeliverAll(l, bodies[..n], src), bodies[n], Stamps(bodies[n]), src)
  }

  function SentSome(s: System, batches: seq<StateBody>, n: nat, src: Source): System
    requires n <= |batches|
  {
    s.(flight := Some(Sending(s.pending, batches[n..], false)), pending := EMPTY_STATE, timer := false,
       live := DeliverAll(s.live, batches[..n], src))
  }

  lemma SendingStep(s: System, batches: seq<StateBody>, n: nat, src: Source)
    requires n < |batches|
    ensures Next(SentSome(s, batches, n, src), SendOk(Stamps(batches[n])), SentSome(s, batches, n + 1, src), src)
  {
    assert batches[n..][0] == batches[n] && batches[n..][1..] == batches[n+1..];
    assert batches[..n+1][..n] == batches[..n];
  }

  lemma SendMany(s: System, batches: seq<StateBody>, n: nat, src: Source)
    returns (trace: seq<System>, actions: seq<Action>)
    requires s.flight.None? && s.pending != EMPTY_STATE && IsSplit(batches, s.pending) && n <= |batches|
    ensures Steps(trace, actions, src) && trace[0] == s && |actions| == n + 1 && forall a :: a in actions ==> Sends(a)
    ensures trace[|actions|] == SentSome(s, batches, n, src)
  {
    if n == 0 {
      assert batches[0..] == batches && batches[..0] == [];
      trace, actions := [s, SentSome(s, batches, 0, src)], [BeginFlush(batches)];
    } else {
      trace, actions := SendMany(s, batches, n - 1, src);
      SendingStep(s, batches, n - 1, src);
      StepsSnoc(trace, actions, SendOk(Stamps(batches[n-1])), SentSome(s, batches, n, src), src);
      trace, actions := trace + [SentSome(s, batches, n, src)], actions + [SendOk(Stamps(batches[n-1]))];
    }
  }

  /** A flush in which every batch goes out. */
  lemma FlushAll(s: System, batches: seq<StateBody>, src: Source) returns (trace: seq<System>, actions: seq<Action>)
    requires s.flight.None? && s.pending != EMPTY_STATE && IsSplit(batches, s.pending)
    ensures Steps(trace, actions, src) && trace[0] == s && |actions| > 0 && forall a :: a in actions ==> Sends(a)
    ensures trace[|actions|] == AfterLast(s, batches, src)
  {
    trace, actions := SendMany(s, batches, |batches|, src);
    LastStep(s, batches, src);
    StepsSnoc(trace, actions, AllSent, AfterLast(s, batches, src), src);
    trace, actions := trace + [AfterLast(s, batches, src)], actions + [AllSent];
  }

  /**
   The flush of the outbox, whatever the link does, is a run of the machine up to its storage
   write: it leaves the pending set, the mirror and the timer `Outbox.Flush` leaves, and delivers
   what `Outbox.Flush` sends.
   */
  lemma FlushIsRun(s: System, batches: seq<StateBody>, link: Link, src: Source)
    returns (trace: seq<System>, actions: seq<Action>)
    requires s.flight.None? && s.pending != EMPTY_STATE && IsSplit(batches, s.pending)
    ensures Steps(trace, actions, src) && trace[0] == s && forall a :: a in actions ==> Sends(a)
    ensures var s' := trace[|actions|];
      && s'.flight == Some(Saving(Fails(batches, link))) && !s'.timer
      && s'.pending == (if Fails(batches, link) then s.pending else EMPTY_STATE)
      && s'.mirror == s'.pending
      && s'.base == s.base && s'.log == s.log
      && s'.live == DeliverAll(s.live, Delivered(batches, link), src)
  {
    if Fails(batches, link) {
      var n := link.failAt;
      trace, actions := SendMany(s, batches, n, src);
      var a, last := SendFails(link.delivered, Stamps(batches[n])), AfterFailure(s, batches, link, src);
      FailureStep(s, batches, link, src);
      StepsSnoc(trace, actions, a, last, src);
      trace, actions := trace + [last], actions + [a];
    } else {
      trace, actions := FlushAll(s, batches, src);
    }
  }

  ghost function AfterFailure(s: System, batches: seq<StateBody>, link: Link, src: Source): System {
    s.(flight := Some(Saving(true)), timer := false, mirror := s.pending,
       live := DeliverAll(s.live, Delivered(batches, link), src))
  }

  lemma FailureStep(s: System, batches: seq<StateBody>, link: Link, src: Source)
    requires s.flight.None? && Fails(batches, link)
    ensures Next(SentSome(s, batches, link.failAt, src), SendFails(link.delivered, Stamps(batches[link.failAt])),
                 AfterFailure(s, batches, link, src), src)
  {
    var n := link.failAt;
    MergeEmpty(s.pending);
    assert batches[n..][0] == batches[n];
    assert batches[..n+1][..n] == batches[..n];
  }

  ghost function AfterLast(s: System, batches: seq<StateBody>, src: Source): System {
    s.(pending := EMPTY_STATE, flight := Some(Saving(false)), timer := false, mirror := EMPTY_STATE,
       live := DeliverAll(s.live, batches, src))
  }

  lemma LastStep(s: System, batches: seq<StateBody>, src: Source)
    requires s.flight.None?
    ensures Next(SentSome(s, batches, |batches|, src), AllSent, AfterLast(s, batches, src), src)
  {
    assert batches[..|batches|] == batches;
  }
}
