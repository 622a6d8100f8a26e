/**
 The whole capture path as a state machine: events reach the outbox at any moment, also
 while a send or a storage write is waiting; batches are sent one at a time and may fail,
 applied or not; the service worker may be evicted at any moment; a periodic reconcile, or
 the messages of another browser or profile, may arrive in between; the agent applies what
 reaches it (extension/src/background/outbox.ts, index.ts with
 agent/crates/sr-agent/src/server.rs:729-825 and ingest.rs:92-214).

 The main theorem: whenever nothing is pending or being sent, the agent's rows are those of
 applying every enqueued delta one by one, after the last reconcile if there was one.
 Coalescing, splitting, resends and harmless evictions change nothing.
 */
module Pipeline {
  import opened Options
  import opened Protocol
  import opened LiveTables
  import opened Coalescing
  import opened Isolation
  import opened Outbox

  /** A flush under way. */
  datatype Flight =
    | Sending(outgoing: PendingState,  // what it took
              todo: seq<StateBody>,    // what is still to send
              touched: bool)           // whether an event came since
    | Saving(retry: bool)              // its storage write is not done; a failed one will arm a timer

  datatype System = System(
    pending: PendingState, flight: Option<Flight>, timer: bool,
    mirror: PendingState,       // storage.session
    live: Live,                 // the agent's rows
    // History: the rows at the start or after the last reconcile, with what others sent since,
    // and what that reconcile found outstanding with every delta enqueued since, in order.
    base: Live, log: seq<Delta>)

  datatype Action =
    | Enqueue(d: Delta)
    | BeginFlush(batches: seq<StateBody>)
    | TimerRunsOut              // with nothing pending, or during a flush
    | SendOk(expiry: seq<int>)
    | SendFails(applied: bool, expiry: seq<int>)
    | AllSent
    | EndFlush
    | Evict
    | Reconcile(body: StateBody, expiry: seq<int>, outstanding: seq<StateBody>)
    | Others(m: Message)        // from another browser or profile

  predicate InSending(s: System) { s.flight.Some? && s.flight.value.Sending? }

  function Deliver(l: Live, body: StateBody, expiry: seq<int>, src: Source): Live
    requires |expiry| == |body.tabs|
  {
    ApplyState(l, body, expiry, false, src)
  }

  /** What the outbox still holds. */
  function Outstanding(s: System): PendingState {
    if InSending(s) then Merge(s.flight.value.outgoing, s.pending) else s.pending
  }

  function AllDeltas(bodies: seq<StateBody>): seq<Delta> {
    if bodies == [] then [] else BodyDeltas(bodies[0]) + AllDeltas(bodies[1..])
  }

  function BodyDeltas(body: StateBody): seq<Delta> {
    Deltas(body, Stamps(body))
  }

  ghost predicate Next(s: System, a: Action, s': System, src: Source) {
    match a
    case Enqueue(d) =>
      var p := Put(s.pending, d);
      s' == s.(pending := p, mirror := p, log := s.log + [Unstamp(d)],
               timer := if Count(p) >= MAX_PENDING_BEFORE_FLUSH then s.timer else true,
               flight := if InSending(s) then Some(s.flight.value.(touched := true)) else s.flight)
    case BeginFlush(batches) =>
      && s.flight.None? && s.pending != EMPTY_STATE && IsSplit(batches, s.pending)
      && s' == s.(flight := Some(Sending(s.pending, batches, false)), pending := EMPTY_STATE, timer := false)
    case TimerRunsOut =>
      && s.timer && (s.flight.Some? || s.pending == EMPTY_STATE)
      && s' == s.(timer := false)
    case SendOk(expiry) =>
      && InSending(s) && s.flight.value.todo != [] && |expiry| == |s.flight.value.todo[0].tabs|
      && s' == s.(flight := Some(s.flight.value.(todo := s.flight.value.todo[1..])),
                  live := Deliver(s.live, s.flight.value.todo[0], expiry, src))
    case SendFails(applied, expiry) =>
      && InSending(s) && s.flight.value.todo != [] && |expiry| == |s.flight.value.todo[0].tabs|
      && var back := Merge(s.flight.value.outgoing, s.pending);
      s' == s.(flight := Some(Saving(true)), pending := back, mirror := back,
               live := if applied then Deliver(s.live, s.flight.value.todo[0], expiry, src) else s.live)
    case AllSent =>
      && InSending(s) && s.flight.value.todo == []
      && s' == s.(flight := Some(Saving(false)), mirror := s.pending)
    case EndFlush =>
      && s.flight.Some? && s.flight.value.Saving?
      && s' == s.(flight := None, timer := s.timer || s.flight.value.retry)
    case Evict =>
      s' == s.(flight := None, pending := s.mirror, timer := Count(s.mirror) > 0)
    case Reconcile(body, expiry, outstanding) =>
      && |expiry| == |body.tabs| && IsSplit(outstanding, Outstanding(s))
      && var l := ApplyState(s.live, body, expiry, true, src);
      s' == s.(live := l, base := l, log := AllDeltas(outstanding))
    case Others(m) =>
      && WellFormed(m) && By(m.src) != By(src)
      && s' == s.(live := Receive(s.live, m), base := Receive(s.base, m))
  }

  ghost predicate Init(s: System) {
    s.pending == EMPTY_STATE && s.flight.None? && !s.timer && s.mirror == EMPTY_STATE && s.base == s.live && s.log == []
  }

  ghost predicate Run(trace: seq<System>, actions: seq<Action>, src: Source) {
    && |trace| == |actions| + 1
    && Init(trace[0])
    && forall i | 0 <= i < |actions| :: Next(trace[i], actions[i], trace[i+1], src)
  }

  /** Nothing is pending or being sent. */
  ghost predicate Quiescent(s: System) { s.pending == EMPTY_STATE && !InSending(s) }

  // ----- One key at a time -----

  function DeltaAt(p: PendingState, k: Key): Option<Delta> {
    match k
    case WinKey(id) => if id in p.windows then Some(Win(p.windows[id])) else None
    case TabKey(id) => if id in p.tabs then Some(Tab(p.tabs[id], 0)) else None
    case GrpKey(id) => if id in p.groups then Some(Grp(p.groups[id])) else None
  }

  function Later(c: Cell, p: PendingState, k: Key, src: Source): Cell {
    match DeltaAt(p, k)
    case None => c
    case Some(d) => if KeyOf(d) == k then Step(c, d, src) else c
  }

  /** The keys this extension names, and the private flag of every tab key. */
  datatype Scope = Scope(keys: set<Key>, flag: Flags)

  predicate Within(d: Delta, scope: Scope) { KeyOf(d) in scope.keys && Follows(d, scope.flag) }

  /** If the key is one this extension names, the last delta alone decides its cell. */
  predicate FitsIn(c: Cell, k: Key, scope: Scope, src: Source) { k in scope.keys ==> Fits(c, k, scope.flag, src) }

  ghost predicate Filed(p: PendingState, scope: Scope) {
    WellKeyed(p) && forall k :: DeltaAt(p, k).Some? ==> Within(DeltaAt(p, k).value, scope)
  }

  ghost predicate CarriedBy(bodies: seq<StateBody>, p: PendingState) {
    forall d :: d in AllDeltas(bodies) ==> DeltaAt(p, KeyOf(d)) == Some(d)
  }

  /** The cell as the agent has it, stamps aside. */
  function Now(s: System, k: Key): Cell { Erase(Read(s.live, k)) }

  /** The cell as applying every enqueued delta one by one would make it. */
  function Wanted(s: System, k: Key, src: Source): Cell { FoldCell(Erase(Read(s.base, k)), s.log, k, src) }

  /** Applying what is still to send, or all of it again, and then what is pending reaches the wanted cell. */
  ghost predicate CellInv(s: System, k: Key, scope: Scope, src: Source) {
    && FitsIn(Now(s, k), k, scope, src)
    && if InSending(s) then
         && Later(Later(Now(s, k), s.flight.value.outgoing, k, src), s.pending, k, src) == Wanted(s, k, src)
         && Later(FoldCell(Now(s, k), AllDeltas(s.flight.value.todo), k, src), s.pending, k, src) == Wanted(s, k, src)
       else Later(Now(s, k), s.pending, k, src) == Wanted(s, k, src)
  }

  ghost predicate PendingInv(s: System, scope: Scope) {
    && Filed(s.pending, scope) && Filed(s.mirror, scope)
    && s.live.apps == s.base.apps && (forall d :: d in s.log ==> KeyOf(d) in scope.keys)
    && (if InSending(s) then
          var f := s.flight.value;
          && Filed(f.outgoing, scope) && CarriedBy(f.todo, f.outgoing)
          && s.mirror == (if f.touched then s.pending else f.outgoing)
          && (!f.touched ==> s.pending == EMPTY_STATE)
        else s.mirror == s.pending)
  }

  ghost predicate Inv(s: System, scope: Scope, src: Source) {
    PendingInv(s, scope) && forall k :: CellInv(s, k, scope, src)
  }

  // ----- What a run may do -----

  /** An eviction that loses nothing: what it drops from the flight is pending again, or already shown by the agent. */
  ghost predicate Harmless(s: System, src: Source) {
    InSending(s) && s.flight.value.touched ==>
      forall d :: d in AllDeltas(s.flight.value.todo) ==>
        DeltaAt(s.pending, KeyOf(d)).Some? || Step(Now(s, KeyOf(d)), d, src) == Now(s, KeyOf(d))
  }

  /** What this flush has sent for a key still shows, unless an event for the key has come since. */
  ghost predicate KeyShown(s: System, s': System, k: Key, src: Source)
    requires InSending(s)
  {
    var sent := DeltaAt(s.flight.value.outgoing, k);
    sent.Some? && sent.value !in AllDeltas(s.flight.value.todo) && DeltaAt(s.pending, k).None?
    ==> Step(Now(s', k), sent.value, src) == Now(s', k)
  }

  /**
   A reconcile during a send undoes nothing the flush has sent: otherwise how the flush ends
   would decide the rows.
   */
  ghost predicate SentShown(s: System, s': System, src: Source) {
    InSending(s) ==> forall k :: KeyShown(s, s', k, src)
  }

  /** A message of another browser or profile that leaves this extension's keys alone, and reads no others. */
  ghost predicate Apart(s: System, m: Message, keys: set<Key>)
    requires WellFormed(m)
  {
    && (forall k :: k in keys ==> Read(Receive(s.live, m), k) == Read(s.live, k))
    && (forall k :: k in keys ==> Read(Receive(s.base, m), k) == Read(s.base, k))
    && (forall k :: k !in keys ==> Erase(Read(Receive(s.live, m), k)) == Erase(Read(Receive(s.base, m), k)))
  }

  ghost predicate CarefulStep(s: System, a: Action, s': System, scope: Scope, src: Source) {
    && (a.Evict? ==> Harmless(s, src))
    && (a.Reconcile? ==> SentShown(s, s', src))
    && (a.Others? ==> WellFormed(a.m) && Apart(s, a.m, scope.keys))
  }

  ghost predicate Careful(trace: seq<System>, actions: seq<Action>, scope: Scope, src: Source)
    requires |trace| == |actions| + 1
  {
    forall i | 0 <= i < |actions| :: CarefulStep(trace[i], actions[i], trace[i+1], scope, src)
  }

  // ----- Pending states -----

  lemma PutAt(p: PendingState, d: Delta, k: Key)
    ensures DeltaAt(Put(p, d), k) == if KeyOf(d) == k then Some(Unstamp(d)) else DeltaAt(p, k)
  {
  }

  lemma MergeAt(a: PendingState, b: PendingState, k: Key)
    ensures DeltaAt(Merge(a, b), k) == if DeltaAt(b, k).Some? then DeltaAt(b, k) else DeltaAt(a, k)
  {
  }

  lemma FiledAt(p: PendingState, scope: Scope, k: Key)
    requires Filed(p, scope)
    ensures DeltaAt(p, k).Some? ==> KeyOf(DeltaAt(p, k).value) == k && Within(DeltaAt(p, k).value, scope)
  {
  }

  lemma PutFiled(p: PendingState, d: Delta, scope: Scope)
    requires Filed(p, scope) && Within(d, scope)
    ensures Filed(Put(p, d), scope)
  {
    forall k | DeltaAt(Put(p, d), k).Some? ensures Within(DeltaAt(Put(p, d), k).value, scope) {
      PutAt(p, d, k);
    }
  }

  lemma MergeFiled(a: PendingState, b: PendingState, scope: Scope)
    requires Filed(a, scope) && Filed(b, scope)
    ensures Filed(Merge(a, b), scope)
  {
    forall k | DeltaAt(Merge(a, b), k).Some? ensures Within(DeltaAt(Merge(a, b), k).value, scope) {
      MergeAt(a, b, k);
    }
  }

  lemma EmptyFiled(scope: Scope)
    ensures Filed(EMPTY_STATE, scope)
  {
  }

  // ----- What the batches carry -----

  lemma BodyDeltasAre(body: StateBody)
    ensures forall w :: w in body.windows ==> Win(w) in BodyDeltas(body)
    ensures forall t :: t in body.tabs ==> Tab(t, 0) in BodyDeltas(body)
    ensures forall g :: g in body.groups ==> Grp(g) in BodyDeltas(body)
    ensures forall d :: d in BodyDeltas(body) ==>

              match d
              case Win(w) => w in body.windows
              case Tab(t, e) => t in body.tabs && e == 0
              case Grp(g) => g in body.groups
  {
    var ds := BodyDeltas(body);
    forall w | w in body.windows ensures Win(w) in ds {
      var i :| 0 <= i < |body.windows| && body.windows[i] == w;
      assert ds[i] == Win(w);
    }
    forall t | t in body.tabs ensures Tab(t, 0) in ds {
      var i :| 0 <= i < |body.tabs| && body.tabs[i] == t;
      assert ds[|body.windows| + i] == Tab(t, 0);
    }
    forall g | g in body.groups ensures Grp(g) in ds {
      var i :| 0 <= i < |body.groups| && body.groups[i] == g;
      assert ds[|body.windows| + |body.tabs| + i] == Grp(g);
    }
  }

  lemma {:induction false} AllDeltasAre(bodies: seq<StateBody>, d: Delta)
    ensures d in AllDeltas(bodies) <==> exists b :: b in bodies && d in BodyDeltas(b)
  {
    if bodies != [] {
      AllDeltasAre(bodies[1..], d);
      assert bodies[0] in bodies;
    }
  }

  lemma {:induction false} AllTabsAre(bodies: seq<StateBody>, t: TabDelta)
    ensures t in AllTabs(bodies) <==> exists b :: b in bodies && t in b.tabs
  {
    if bodies != [] {
      AllTabsAre(bodies[1..], t);
      assert bodies[0] in bodies;
    }
  }

  lemma ListsExactly<V(!new)>(vs: seq<V>, m: map<string, V>)
    requires Lists(vs, m)
    ensures forall v :: v in vs <==> v in m.Values
  {
    var ks :| ListsBy(vs, m, ks);
    forall v ensures v in vs <==> v in m.Values {
      if v in vs {
        var i :| 0 <= i < |vs| && vs[i] == v;
        assert ks[i] in m && m[ks[i]] == v;
      }
      if v in m.Values {
        var k :| k in m && m[k] == v;
        ListedAt(vs, m, ks, k);
      }
    }
  }

  lemma ListedAt<V(!new)>(vs: seq<V>, m: map<string, V>, ks: seq<string>, k: string)
    requires ListsBy(vs, m, ks) && k in m
    ensures m[k] in vs
  {
    var i :| 0 <= i < |ks| && ks[i] == k;
    assert vs[i] == m[k];
  }

  /** The messages of a split carry exactly the pending deltas. */
  lemma SplitCarries(batches: seq<StateBody>, p: PendingState)
    requires IsSplit(batches, p) && WellKeyed(p)
    ensures CarriedBy(batches, p)
    ensures forall k :: DeltaAt(p, k).Some? ==> DeltaAt(p, k).value in AllDeltas(batches)
  {
    var windows, tabs, groups :| && Lists(windows, p.windows) && Lists(tabs, p.tabs) && Lists(groups, p.groups)
                                 && batches == Batches(windows, tabs, groups);
    ListsExactly(windows, p.windows);
    ListsExactly(tabs, p.tabs);
    ListsExactly(groups, p.groups);
    BatchesCarryAll(windows, tabs, groups);
    forall d | d in AllDeltas(batches) ensures DeltaAt(p, KeyOf(d)) == Some(d) {
      CarriedIsPending(batches, windows, tabs, groups, p, d);
    }
    forall k | DeltaAt(p, k).Some? ensures DeltaAt(p, k).value in AllDeltas(batches) {
      PendingIsCarried(batches, windows, tabs, groups, p, k);
    }
  }

  ghost predicate Rides(batches: seq<StateBody>, windows: seq<WindowDelta>, tabs: seq<TabDelta>,
                        groups: seq<GroupDelta>) {
    && AllTabs(batches) == tabs
    && (batches == [] <==> windows == [] && tabs == [] && groups == [])
    && (batches != [] ==> batches[0].windows == windows && batches[0].groups == groups)
    && (forall i :: 0 < i < |batches| ==> batches[i].windows == [] && batches[i].groups == [])
  }

  lemma CarriedIsPending(batches: seq<StateBody>, windows: seq<WindowDelta>, tabs: seq<TabDelta>,
                         groups: seq<GroupDelta>,
                         p: PendingState, d: Delta)
    requires Rides(batches, windows, tabs, groups) && WellKeyed(p) && d in AllDeltas(batches)
    requires (forall v :: v in windows <==> v in p.windows.Values) && (forall v :: v in tabs <==> v in p.tabs.Values)
    requires forall v :: v in groups <==> v in p.groups.Values
    ensures DeltaAt(p, KeyOf(d)) == Some(d)
  {
    AllDeltasAre(batches, d);
    var b :| b in batches && d in BodyDeltas(b);
    BodyDeltasAre(b);
    match d
    case Win(w) => assert w in windows;
    case Tab(t, _) => AllTabsAre(batches, t);
    case Grp(g) => assert g in groups;
  }

  lemma PendingIsCarried(batches: seq<StateBody>, windows: seq<WindowDelta>, tabs: seq<TabDelta>,
                         groups: seq<GroupDelta>,
                         p: PendingState, k: Key)
    requires Rides(batches, windows, tabs, groups) && DeltaAt(p, k).Some?
    requires (forall v :: v in windows <==> v in p.windows.Values) && (forall v :: v in tabs <==> v in p.tabs.Values)
    requires forall v :: v in groups <==> v in p.groups.Values
    ensures DeltaAt(p, k).value in AllDeltas(batches)
  {
    var d := DeltaAt(p, k).value;
    match k {
      case WinKey(id) =>
        assert p.windows[id] in windows;
        BodyDeltasAre(batches[0]);
        assert batches[0] in batches && d in BodyDeltas(batches[0]);
      case TabKey(id) =>
        var t := p.tabs[id];
        assert t in tabs;
        AllTabsAre(batches, t);
        var b :| b in batches && t in b.tabs;
        BodyDeltasAre(b);
      case GrpKey(id) =>
        assert p.groups[id] in groups;
        BodyDeltasAre(batches[0]);
        assert batches[0] in batches && d in BodyDeltas(batches[0]);
    }
    AllDeltasAre(batches, d);
  }

  // ----- Delivering a message -----

  lemma DeliverCell(l: Live, body: StateBody, expiry: seq<int>, k: Key, src: Source)
    requires |expiry| == |body.tabs|
    ensures Erase(Read(Deliver(l, body, expiry, src), k)) == FoldCell(Erase(Read(l, k)), BodyDeltas(body), k, src)
    ensures Deliver(l, body, expiry, src).apps == l.apps
  {
    var ds := Deltas(body, expiry);
    ReadFold(l, ds, k, src);
    EraseFoldCell(Read(l, k), ds, k, src);
    assert UnstampAll(ds) == BodyDeltas(body);
  }

  /** Whatever part of the outgoing deltas a message repeats, applying the outgoing ones still decides. */
  lemma Absorbed(c: Cell, body: StateBody, p: PendingState, k: Key, scope: Scope, src: Source)
    requires Filed(p, scope) && FitsIn(c, k, scope, src)
    requires forall d :: d in BodyDeltas(body) ==> DeltaAt(p, KeyOf(d)) == Some(d)
    ensures var c' := FoldCell(c, BodyDeltas(body), k, src);
      FitsIn(c', k, scope, src) && Later(c', p, k, src) == Later(c, p, k, src)
  {
    FiledAt(p, scope, k);
    var ds := BodyDeltas(body);
    if DeltaAt(p, k).Some? {
      var only := DeltaAt(p, k).value;
      FoldRepeats(c, ds, only, scope.flag, src);
      FitsStep(c, only, scope.flag, src);
      LastWins(c, only, only, scope.flag, src);
    } else {
      FoldAbsent(c, ds, k, src);
    }
  }

  lemma FirstBatch(bodies: seq<StateBody>, p: PendingState)
    requires CarriedBy(bodies, p) && bodies != []
    ensures forall d :: d in BodyDeltas(bodies[0]) ==> DeltaAt(p, KeyOf(d)) == Some(d)
    ensures CarriedBy(bodies[1..], p)
    ensures AllDeltas(bodies) == BodyDeltas(bodies[0]) + AllDeltas(bodies[1..])
  {
  }

  // ----- Every step keeps the invariant -----

  lemma EnqueueKeeps(s: System, s': System, d: Delta, scope: Scope, src: Source)
    requires Inv(s, scope, src) && Next(s, Enqueue(d), s', src) && Within(d, scope)
    ensures Inv(s', scope, src)
  {
    PutFiled(s.pending, d, scope);
    forall k ensures CellInv(s', k, scope, src) {
      EnqueueCell(s, s', d, k, scope, src);
    }
  }

  /** One more delta over a cell that what is pending already brings to the wanted one. */
  lemma LaterPut(x: Cell, p: PendingState, d: Delta, k: Key, scope: Scope, src: Source)
    requires Filed(p, scope) && Within(d, scope) && FitsIn(x, k, scope, src)
    ensures var wanted := Later(x, p, k, src);
      Later(x, Put(p, d), k, src) == if KeyOf(d) == k then Step(wanted, Unstamp(d), src) else wanted
  {
    PutAt(p, d, k);
    FiledAt(p, scope, k);
    if KeyOf(d) == k && DeltaAt(p, k).Some? { LastWins(x, DeltaAt(p, k).value, Unstamp(d), scope.flag, src); }
  }

  lemma EnqueueCell(s: System, s': System, d: Delta, k: Key, scope: Scope, src: Source)
    requires Inv(s, scope, src) && Next(s, Enqueue(d), s', src) && Within(d, scope)
    ensures CellInv(s', k, scope, src)
  {
    assert CellInv(s, k, scope, src);
    FoldCellSnoc(Erase(Read(s.base, k)), s.log, Unstamp(d), k, src);
    var c := Now(s, k);
    if InSending(s) {
      var f := s.flight.value;
      LaterFits(c, f.outgoing, k, scope, src);
      LaterPut(Later(c, f.outgoing, k, src), s.pending, d, k, scope, src);
      TodoCell(c, f.todo, f.outgoing, k, scope, src);
      LaterPut(FoldCell(c, AllDeltas(f.todo), k, src), s.pending, d, k, scope, src);
    } else {
      LaterPut(c, s.pending, d, k, scope, src);
    }
  }

  lemma LaterFits(c: Cell, p: PendingState, k: Key, scope: Scope, src: Source)
    requires Filed(p, scope) && FitsIn(c, k, scope, src)
    ensures FitsIn(Later(c, p, k, src), k, scope, src)
  {
    FiledAt(p, scope, k);
    if DeltaAt(p, k).Some? { FitsStep(c, DeltaAt(p, k).value, scope.flag, src); }
  }

  /** Part of the outgoing deltas does to a key what all of them do, or nothing. */
  lemma TodoCell(c: Cell, todo: seq<StateBody>, outgoing: PendingState, k: Key, scope: Scope, src: Source)
    requires CarriedBy(todo, outgoing) && Filed(outgoing, scope) && FitsIn(c, k, scope, src)
    ensures FoldCell(c, AllDeltas(todo), k, src)
            == if exists d :: d in AllDeltas(todo) && KeyOf(d) == k then Later(c, outgoing, k, src) else c
    ensures FitsIn(FoldCell(c, AllDeltas(todo), k, src), k, scope, src)
  {
    FiledAt(outgoing, scope, k);
    var ds := AllDeltas(todo);
    if d :| d in ds && KeyOf(d) == k {
      assert DeltaAt(outgoing, k) == Some(d);
      FoldRepeats(c, ds, d, scope.flag, src);
      FitsStep(c, d, scope.flag, src);
    } else {
      FoldAbsent(c, ds, k, src);
    }
  }

  lemma BeginKeeps(s: System, s': System, batches: seq<StateBody>, scope: Scope, src: Source)
    requires Inv(s, scope, src) && Next(s, BeginFlush(batches), s', src)
    ensures Inv(s', scope, src)
  {
    SplitCarries(batches, s.pending);
    EmptyFiled(scope);
    forall k ensures CellInv(s', k, scope, src) {
      assert CellInv(s, k, scope, src);
      TodoCell(Now(s, k), batches, s.pending, k, scope, src);
      FiledAt(s.pending, scope, k);
      assert DeltaAt(s.pending, k).Some? ==> DeltaAt(s.pending, k).value in AllDeltas(batches);
    }
  }

  lemma SendOkKeeps(s: System, s': System, expiry: seq<int>, scope: Scope, src: Source)
    requires Inv(s, scope, src) && Next(s, SendOk(expiry), s', src)
    ensures Inv(s', scope, src)
  {
    var f := s.flight.value;
    FirstBatch(f.todo, f.outgoing);
    forall k ensures CellInv(s', k, scope, src) {
      assert CellInv(s, k, scope, src);
      DeliverCell(s.live, f.todo[0], expiry, k, src);
      Absorbed(Now(s, k), f.todo[0], f.outgoing, k, scope, src);
      FoldCellConcat(Now(s, k), BodyDeltas(f.todo[0]), AllDeltas(f.todo[1..]), k, src);
    }
    DeliverCell(s.live, f.todo[0], expiry, WinKey(""), src);
  }

  lemma MergedCell(c: Cell, older: PendingState, newer: PendingState, k: Key, scope: Scope, src: Source)
    requires Filed(older, scope) && Filed(newer, scope) && FitsIn(c, k, scope, src)
    ensures Later(c, Merge(older, newer), k, src) == Later(Later(c, older, k, src), newer, k, src)
  {
    MergeAt(older, newer, k);
    FiledAt(older, scope, k);
    FiledAt(newer, scope, k);
    if DeltaAt(older, k).Some? && DeltaAt(newer, k).Some? {
      LastWins(c, DeltaAt(older, k).value, DeltaAt(newer, k).value, scope.flag, src);
    }
  }

  lemma SendFailsCell(s: System, s': System, applied: bool, expiry: seq<int>, k: Key, scope: Scope, src: Source)
    requires Inv(s, scope, src) && Next(s, SendFails(applied, expiry), s', src)
    ensures CellInv(s', k, scope, src)
  {
    var f := s.flight.value;
    assert CellInv(s, k, scope, src);
    FirstBatch(f.todo, f.outgoing);
    DeliverCell(s.live, f.todo[0], expiry, k, src);
    Absorbed(Now(s, k), f.todo[0], f.outgoing, k, scope, src);
    MergedCell(Now(s', k), f.outgoing, s.pending, k, scope, src);
  }

  lemma SendFailsPending(s: System, s': System, applied: bool, expiry: seq<int>, scope: Scope, src: Source)
    requires PendingInv(s, scope) && Next(s, SendFails(applied, expiry), s', src)
    ensures PendingInv(s', scope)
  {
    var back := Merge(s.flight.value.outgoing, s.pending);
    MergeFiled(s.flight.value.outgoing, s.pending, scope);
    assert s'.pending == s'.mirror == back && Filed(back, scope) && !InSending(s') && s'.log == s.log;
    DeliverApps(s.live, s.flight.value.todo[0], expiry, src);
  }

  lemma DeliverApps(l: Live, body: StateBody, expiry: seq<int>, src: Source)
    requires |expiry| == |body.tabs|
    ensures Deliver(l, body, expiry, src).apps == l.apps
  {
    ReadFold(l, Deltas(body, expiry), WinKey(""), src);
  }

  lemma SendFailsKeeps(s: System, s': System, applied: bool, expiry: seq<int>, scope: Scope, src: Source)
    requires Inv(s, scope, src) && Next(s, SendFails(applied, expiry), s', src)
    ensures Inv(s', scope, src)
  {
    SendFailsPending(s, s', applied, expiry, scope, src);
    forall k ensures CellInv(s', k, scope, src) {
      SendFailsCell(s, s', applied, expiry, k, scope, src);
    }
  }

  lemma QuietKeeps(s: System, a: Action, s': System, scope: Scope, src: Source)
    requires Inv(s, scope, src) && Next(s, a, s', src)
    requires a.TimerRunsOut? || a.AllSent? || a.EndFlush?
    ensures Inv(s', scope, src)
  {
    forall k ensures CellInv(s', k, scope, src) {
      assert CellInv(s, k, scope, src);
    }
  }

  // ----- Evictions -----

  /** Hydrating from the mirror keeps every enqueued delta: what it takes up, once sent, reaches the wanted rows. */
  ghost predicate KeepsAll(s: System, src: Source) {
    forall k :: Later(Now(s, k), s.mirror, k, src) == Wanted(s, k, src)
  }

  /** What an eviction during a send, after an event, does to one key. */
  lemma EvictedCell(s: System, k: Key, scope: Scope, src: Source)
    requires Inv(s, scope, src) && InSending(s) && s.flight.value.touched
    ensures Later(Now(s, k), s.mirror, k, src) == Wanted(s, k, src) <==>
      (forall d :: d in AllDeltas(s.flight.value.todo) && KeyOf(d) == k ==>
         DeltaAt(s.pending, k).Some? || Step(Now(s, k), d, src) == Now(s, k))
  {
    assert CellInv(s, k, scope, src);
    var f := s.flight.value;
    var c := Now(s, k);
    FiledAt(s.pending, scope, k);
    FiledAt(f.outgoing, scope, k);
    TodoCell(c, f.todo, f.outgoing, k, scope, src);
    if d :| d in AllDeltas(f.todo) && KeyOf(d) == k {
      assert DeltaAt(f.outgoing, k) == Some(d);
      forall e | e in AllDeltas(f.todo) && KeyOf(e) == k ensures e == d { }
      if DeltaAt(s.pending, k).Some? { LastWins(c, d, DeltaAt(s.pending, k).value, scope.flag, src); }
    }
  }

  lemma HarmlessExactly(s: System, scope: Scope, src: Source)
    requires Inv(s, scope, src)
    ensures KeepsAll(s, src) <==> Harmless(s, src)
  {
    if InSending(s) && s.flight.value.touched {
      forall k ensures Later(Now(s, k), s.mirror, k, src) == Wanted(s, k, src) <==>
        (forall d :: d in AllDeltas(s.flight.value.todo) && KeyOf(d) == k ==>
           DeltaAt(s.pending, k).Some? || Step(Now(s, k), d, src) == Now(s, k))
      {
        EvictedCell(s, k, scope, src);
      }
    } else {
      forall k ensures Later(Now(s, k), s.mirror, k, src) == Wanted(s, k, src) {
        assert CellInv(s, k, scope, src);
      }
    }
  }

  lemma EvictKeeps(s: System, s': System, scope: Scope, src: Source)
    requires Inv(s, scope, src) && Next(s, Evict, s', src) && Harmless(s, src)
    ensures Inv(s', scope, src)
  {
    HarmlessExactly(s, scope, src);
    forall k ensures CellInv(s', k, scope, src) {
      assert CellInv(s, k, scope, src);
    }
  }

  // ----- Reconciles -----

  /** The deltas of a pending state, in any order of its messages, do to a key what is pending for it. */
  lemma SplitCell(c: Cell, batches: seq<StateBody>, p: PendingState, k: Key, scope: Scope, src: Source)
    requires IsSplit(batches, p) && Filed(p, scope) && FitsIn(c, k, scope, src)
    ensures FoldCell(c, AllDeltas(batches), k, src) == Later(c, p, k, src)
  {
    SplitCarries(batches, p);
    FiledAt(p, scope, k);
    TodoCell(c, batches, p, k, scope, src);
    assert DeltaAt(p, k).Some? ==> DeltaAt(p, k).value in AllDeltas(batches);
  }

  lemma FitsErase(c: Cell, k: Key, scope: Scope, src: Source)
    ensures FitsIn(Erase(c), k, scope, src) <==> FitsIn(c, k, scope, src)
  {
  }

  lemma ReapFits(l: Live, body: StateBody, owned: set<string>, k: Key, scope: Scope, src: Source)
    requires FitsIn(Read(l, k), k, scope, src)
    ensures FitsIn(Read(Reap(l, body, owned), k), k, scope, src)
  {
  }

  /** A payload that reports the keys of the scope with their own private flags. */
  predicate BodyFollows(body: StateBody, expiry: seq<int>, scope: Scope) {
    |expiry| == |body.tabs|
    && forall d :: d in Deltas(body, expiry) && KeyOf(d) in scope.keys ==> Follows(d, scope.flag)
  }

  lemma ReconcileFits(l: Live, body: StateBody, expiry: seq<int>, k: Key, scope: Scope, src: Source)
    requires BodyFollows(body, expiry, scope) && FitsIn(Read(l, k), k, scope, src)
    ensures FitsIn(Read(ApplyState(l, body, expiry, true, src), k), k, scope, src)
  {
    var folded := Fold(l, Deltas(body, expiry), src);
    ReadFold(l, Deltas(body, expiry), k, src);
    if k in scope.keys { FitsFold(Read(l, k), Deltas(body, expiry), k, scope.flag, src); }
    ReapFits(folded, body, Owned(folded, src.browser, src.profile), k, scope, src);
  }

  lemma OutstandingFiled(s: System, scope: Scope)
    requires PendingInv(s, scope)
    ensures Filed(Outstanding(s), scope)
  {
    if InSending(s) { MergeFiled(s.flight.value.outgoing, s.pending, scope); }
  }

  lemma FitsAfterReconcile(s: System, s': System, a: Action, k: Key, scope: Scope, src: Source)
    requires a.Reconcile? && Inv(s, scope, src) && Next(s, a, s', src) && BodyFollows(a.body, a.expiry, scope)
    ensures FitsIn(Now(s', k), k, scope, src)
    ensures Wanted(s', k, src) == Later(Now(s', k), Outstanding(s), k, src)
  {
    assert CellInv(s, k, scope, src);
    FitsErase(Read(s.live, k), k, scope, src);
    ReconcileFits(s.live, a.body, a.expiry, k, scope, src);
    FitsErase(Read(s'.live, k), k, scope, src);
    OutstandingFiled(s, scope);
    SplitCell(Now(s', k), a.outstanding, Outstanding(s), k, scope, src);
  }

  /** Whether the flush then ends well or badly decides a key, unless what it has sent for it shows. */
  lemma EitherEnd(c: Cell, outgoing: PendingState, todo: seq<StateBody>, newer: PendingState, k: Key, scope: Scope,
                  src: Source)
    requires Filed(outgoing, scope) && Filed(newer, scope) && CarriedBy(todo, outgoing) && FitsIn(c, k, scope, src)
    ensures Later(FoldCell(c, AllDeltas(todo), k, src), newer, k, src)
            == Later(Later(c, outgoing, k, src), newer, k, src)
            <==> (DeltaAt(outgoing, k).Some? && DeltaAt(outgoing, k).value !in AllDeltas(todo)
                  && DeltaAt(newer, k).None?
                  ==> Step(c, DeltaAt(outgoing, k).value, src) == c)
  {
    TodoCell(c, todo, outgoing, k, scope, src);
    FiledAt(newer, scope, k);
    FiledAt(outgoing, scope, k);
    if DeltaAt(outgoing, k).Some? && DeltaAt(newer, k).Some? {
      LastWins(c, DeltaAt(outgoing, k).value, DeltaAt(newer, k).value, scope.flag, src);
    }
  }

  lemma ReconcileCell(s: System, s': System, a: Action, k: Key, scope: Scope, src: Source)
    requires a.Reconcile? && Inv(s, scope, src) && Next(s, a, s', src) && BodyFollows(a.body, a.expiry, scope)
    ensures CellInv(s', k, scope, src) <==> (InSending(s) ==> KeyShown(s, s', k, src))
  {
    FitsAfterReconcile(s, s', a, k, scope, src);
    if InSending(s) {
      var f := s.flight.value;
      MergedCell(Now(s', k), f.outgoing, s.pending, k, scope, src);
      EitherEnd(Now(s', k), f.outgoing, f.todo, s.pending, k, scope, src);
    }
  }

  lemma OutstandingKeys(batches: seq<StateBody>, p: PendingState, scope: Scope)
    requires IsSplit(batches, p) && Filed(p, scope)
    ensures forall d :: d in AllDeltas(batches) ==> KeyOf(d) in scope.keys
  {
    SplitCarries(batches, p);
  }

  /** A reconcile keeps the invariant outside a send always, and during one exactly if it shows what was sent. */
  lemma ReconcileKeepsExactly(s: System, s': System, a: Action, scope: Scope, src: Source)
    requires a.Reconcile? && Inv(s, scope, src) && Next(s, a, s', src) && BodyFollows(a.body, a.expiry, scope)
    ensures Inv(s', scope, src) <==> SentShown(s, s', src)
  {
    OutstandingFiled(s, scope);
    OutstandingKeys(a.outstanding, Outstanding(s), scope);
    forall k ensures CellInv(s', k, scope, src) <==> (InSending(s) ==> KeyShown(s, s', k, src)) {
      ReconcileCell(s, s', a, k, scope, src);
    }
  }

  // ----- Others' messages -----

  lemma OthersKeep(s: System, s': System, a: Action, scope: Scope, src: Source)
    requires a.Others? && Inv(s, scope, src) && Next(s, a, s', src) && Apart(s, a.m, scope.keys)
    ensures Inv(s', scope, src)
  {
    ReceiveApps(s.live, a.m);
    ReceiveApps(s.base, a.m);
    forall k ensures CellInv(s', k, scope, src) {
      assert CellInv(s, k, scope, src);
      if k !in scope.keys {
        FoldAbsent(Erase(Read(s'.base, k)), s.log, k, src);
        UnnamedCell(s', k, scope, src);
      }
    }
  }

  lemma ReceiveApps(l: Live, m: Message)
    requires WellFormed(m)
    ensures Receive(l, m).apps == l.apps
  {
    ReadFold(l, Deltas(m.body, m.expiry), WinKey(""), m.src);
  }

  /** Nothing held changes a key this extension does not name. */
  lemma UnnamedCell(s: System, k: Key, scope: Scope, src: Source)
    requires PendingInv(s, scope) && k !in scope.keys
    ensures Later(Now(s, k), s.pending, k, src) == Now(s, k)
    ensures InSending(s) ==>
      && Later(Now(s, k), s.flight.value.outgoing, k, src) == Now(s, k)
      && FoldCell(Now(s, k), AllDeltas(s.flight.value.todo), k, src) == Now(s, k)
  {
    FiledAt(s.pending, scope, k);
    if InSending(s) {
      var f := s.flight.value;
      FiledAt(f.outgoing, scope, k);
      TodoCell(Now(s, k), f.todo, f.outgoing, k, scope, src);
    }
  }

  // ----- Runs -----

  /** Every event is within the scope, and every payload follows its flags. */
  predicate Consistent(actions: seq<Action>, scope: Scope) {
    forall a :: a in actions ==>
      match a
      case Enqueue(d) => Within(d, scope)
      case Reconcile(body, expiry, _) => BodyFollows(body, expiry, scope)
      case _ => true
  }

  /** The rows under the keys this extension names fit. What the table holds for others does not matter. */
  predicate FitsLive(l: Live, scope: Scope, src: Source) {
    forall k :: k in scope.keys ==> Fits(Read(l, k), k, scope.flag, src)
  }

  lemma InitInv(s: System, scope: Scope, src: Source)
    requires Init(s) && FitsLive(s.live, scope, src)
    ensures Inv(s, scope, src)
  {
    EmptyFiled(scope);
    forall k ensures CellInv(s, k, scope, src) {
      assert k in scope.keys ==> Fits(Read(s.live, k), k, scope.flag, src);
    }
  }

  lemma StepInv(s: System, a: Action, s': System, scope: Scope, src: Source)
    requires Inv(s, scope, src) && Next(s, a, s', src) && CarefulStep(s, a, s', scope, src) && Consistent([a], scope)
    ensures Inv(s', scope, src)
  {
    assert a in [a];
    match a
    case Enqueue(d) => EnqueueKeeps(s, s', d, scope, src);
    case BeginFlush(batches) => BeginKeeps(s, s', batches, scope, src);
    case SendOk(expiry) => SendOkKeeps(s, s', expiry, scope, src);
    case SendFails(applied, expiry) => SendFailsKeeps(s, s', applied, expiry, scope, src);
    case TimerRunsOut => QuietKeeps(s, a, s', scope, src);
    case AllSent => QuietKeeps(s, a, s', scope, src);
    case EndFlush => QuietKeeps(s, a, s', scope, src);
    case Evict => EvictKeeps(s, s', scope, src);
    case Reconcile(_, _, _) => ReconcileKeepsExactly(s, s', a, scope, src);
    case Others(_) => OthersKeep(s, s', a, scope, src);
  }

  lemma {:induction false} RunInv(trace: seq<System>, actions: seq<Action>, scope: Scope, src: Source, n: nat)
    requires Run(trace, actions, src) && n < |trace| && Careful(trace, actions, scope, src)
    requires Consistent(actions, scope) && FitsLive(trace[0].live, scope, src)
    ensures Inv(trace[n], scope, src)
  {
    if n == 0 {
      InitInv(trace[0], scope, src);
    } else {
      RunInv(trace, actions, scope, src, n - 1);
      assert Next(trace[n-1], actions[n-1], trace[n], src);
      assert CarefulStep(trace[n-1], actions[n-1], trace[n], scope, src);
      assert actions[n-1] in actions;
      StepInv(trace[n-1], actions[n-1], trace[n], scope, src);
    }
  }

  lemma InvIsFold(s: System, scope: Scope, src: Source)
    requires Inv(s, scope, src) && Quiescent(s) && UnstampAll(s.log) == s.log
    ensures EraseExpiry(s.live) == EraseExpiry(Fold(s.base, s.log, src))
  {
    var a, b := EraseExpiry(s.live), EraseExpiry(Fold(s.base, s.log, src));
    forall k ensures Read(a, k) == Read(b, k) {
      assert CellInv(s, k, scope, src);
      ReadErase(s.live, k);
      ReadErase(Fold(s.base, s.log, src), k);
      ReadFold(s.base, s.log, k, src);
      EraseFoldCell(Read(s.base, k), s.log, k, src);
    }
    ReadFold(s.base, s.log, WinKey(""), src);
    SameCells(a, b);
  }

  /**
   After any reconciles: in every run, whenever nothing is pending or being sent, the agent's
   rows are those the last reconcile left, with what it found outstanding and every delta
   enqueued since applied one by one (and whatever others sent since).
   */
  lemma ReconcileThenLastWrite(trace: seq<System>, actions: seq<Action>, scope: Scope, src: Source, n: nat)
    requires Run(trace, actions, src) && n < |trace| && Quiescent(trace[n]) && Careful(trace, actions, scope, src)
    requires Consistent(actions, scope) && FitsLive(trace[0].live, scope, src)
    ensures EraseExpiry(trace[n].live) == EraseExpiry(Fold(trace[n].base, trace[n].log, src))
  {
    RunInv(trace, actions, scope, src, n);
    LogUnstamped(trace, actions, src, n);
    InvIsFold(trace[n], scope, src);
  }

  /** Every delta ever enqueued, in order. */
  function Enqueued(actions: seq<Action>): seq<Delta> {
    if actions == [] then []
    else
      var rest := Enqueued(actions[..|actions|-1]);
      var a := actions[|actions|-1];
      if a.Enqueue? then rest + [Unstamp(a.d)] else rest
  }

  /** Every message of others, in order. */
  function Heard(actions: seq<Action>): (ms: seq<Message>)
    ensures forall m :: m in ms ==> WellFormed(m)
  {
    if actions == [] then []
    else
      var rest := Heard(actions[..|actions|-1]);
      var a := actions[|actions|-1];
      if a.Others? && WellFormed(a.m) then rest + [a.m] else rest
  }

  /** Without a reconcile: what was there first, with others' messages, and everything enqueued. */
  lemma {:induction false} HistoryIs(trace: seq<System>, actions: seq<Action>, src: Source, n: nat)
    requires Run(trace, actions, src) && n < |trace| && forall a :: a in actions ==> !a.Reconcile?
    ensures trace[n].base == ReceiveAll(trace[0].live, Heard(actions[..n])) && trace[n].log == Enqueued(actions[..n])
  {
    if n > 0 {
      HistoryIs(trace, actions, src, n - 1);
      assert Next(trace[n-1], actions[n-1], trace[n], src);
      assert actions[n-1] in actions;
      assert actions[..n][..n-1] == actions[..n-1];
      if actions[n-1].Others? { ReceiveAllSnoc(trace[0].live, Heard(actions[..n-1]), actions[n-1].m); }
    }
  }

  /**
   Last write wins: in every run, whenever nothing is pending or being sent, the agent's rows
   are those of applying every enqueued delta one by one, in order, to the first rows (and to
   what others sent meanwhile). Only the rows this extension names need to fit.
   */
  lemma LastWriteWins(trace: seq<System>, actions: seq<Action>, scope: Scope, src: Source, n: nat)
    requires Run(trace, actions, src) && n < |trace| && Quiescent(trace[n]) && Careful(trace, actions, scope, src)
    requires Consistent(actions, scope) && FitsLive(trace[0].live, scope, src)
    requires forall a :: a in actions ==> !a.Reconcile?
    ensures var first := ReceiveAll(trace[0].live, Heard(actions[..n]));
      EraseExpiry(trace[n].live) == EraseExpiry(Fold(first, Enqueued(actions[..n]), src))
  {
    ReconcileThenLastWrite(trace, actions, scope, src, n);
    HistoryIs(trace, actions, src, n);
  }

  lemma {:induction false} AllDeltasUnstamped(bodies: seq<StateBody>)
    ensures UnstampAll(AllDeltas(bodies)) == AllDeltas(bodies)
  {
    if bodies != [] {
      AllDeltasUnstamped(bodies[1..]);
      var a, b := BodyDeltas(bodies[0]), AllDeltas(bodies[1..]);
      forall i | 0 <= i < |a + b| ensures Unstamp((a + b)[i]) == (a + b)[i] {
        if i >= |a| { assert UnstampAll(b)[i - |a|] == b[i - |a|]; }
      }
    }
  }

  lemma UnstampedSnoc(log: seq<Delta>, d: Delta)
    requires UnstampAll(log) == log
    ensures UnstampAll(log + [Unstamp(d)]) == log + [Unstamp(d)]
  {
    forall i | 0 <= i < |log| ensures Unstamp(log[i]) == log[i] {
      assert UnstampAll(log)[i] == log[i];
    }
  }

  lemma {:induction false} LogUnstamped(trace: seq<System>, actions: seq<Action>, src: Source, n: nat)
    requires Run(trace, actions, src) && n < |trace|
    ensures UnstampAll(trace[n].log) == trace[n].log
  {
    if n > 0 {
      LogUnstamped(trace, actions, src, n - 1);
      assert Next(trace[n-1], actions[n-1], trace[n], src);
      match actions[n-1]
      case Enqueue(d) => UnstampedSnoc(trace[n-1].log, d);
      case Reconcile(_, _, outstanding) => AllDeltasUnstamped(outstanding);
      case _ =>
    }
  }
}
