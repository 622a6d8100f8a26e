/**
 Several browsers and profiles on one agent (agent/crates/sr-agent/src/server.rs:729-901 under
 extension/src/background/outbox.ts): if each names only ids it minted, then through any run of
 the capture path of one of them, with the others' messages arriving at any moment, each part of
 the agent's tables ends up as its own events alone make it.
 */
module PipelineShared {
  import opened Options
  import opened Protocol
  import opened LiveTables
  import opened Coalescing
  import opened Reconcile
  import opened Isolation
  import opened Outbox
  import opened Pipeline

  // ----- Who names what -----

  /** What this extension reports, and what others report, stays with the ids of each. */
  predicate ActionStays(a: Action, ids: Ids, src: Source) {
    match a
    case Enqueue(d) => DeltaStays(d, By(src), ids)
    case Reconcile(body, expiry, _) => |expiry| == |body.tabs| && Stays(Message(body, expiry, true, src), ids)
    case Others(m) => WellFormed(m) && Stays(m, ids)
    case _ => true
  }

  ghost predicate HeldStays(p: PendingState, ids: Ids, src: Source) {
    forall k :: DeltaAt(p, k).Some? ==> DeltaStays(DeltaAt(p, k).value, By(src), ids)
  }

  ghost predicate StaysInv(s: System, ids: Ids, src: Source) {
    && HeldStays(s.pending, ids, src) && HeldStays(s.mirror, ids, src)
    && (InSending(s) ==> HeldStays(s.flight.value.outgoing, ids, src))
    && Separate(s.live, ids) && Separate(s.base, ids)
  }

  predicate OwnKeys(scope: Scope, ids: Ids, src: Source) {
    forall k :: k in scope.keys ==> OwnerOf(k, ids) == By(src)
  }

  /** Evictions are harmless, and a reconcile during a send undoes nothing sent. */
  ghost predicate Mindful(trace: seq<System>, actions: seq<Action>, src: Source)
    requires |trace| == |actions| + 1
  {
    forall i | 0 <= i < |actions| ::
      && (actions[i].Evict? ==> Harmless(trace[i], src))
      && (actions[i].Reconcile? ==> SentShown(trace[i], trace[i+1], src))
  }

  // ----- Every step keeps the parts separate -----

  lemma PutStays(p: PendingState, d: Delta, ids: Ids, src: Source)
    requires HeldStays(p, ids, src) && DeltaStays(d, By(src), ids)
    ensures HeldStays(Put(p, d), ids, src)
  {
    forall k | DeltaAt(Put(p, d), k).Some? ensures DeltaStays(DeltaAt(Put(p, d), k).value, By(src), ids) {
      PutAt(p, d, k);
    }
  }

  lemma MergeStays(a: PendingState, b: PendingState, ids: Ids, src: Source)
    requires HeldStays(a, ids, src) && HeldStays(b, ids, src)
    ensures HeldStays(Merge(a, b), ids, src)
  {
    forall k | DeltaAt(Merge(a, b), k).Some? ensures DeltaStays(DeltaAt(Merge(a, b), k).value, By(src), ids) {
      MergeAt(a, b, k);
    }
  }

  lemma DeliverSeparate(l: Live, body: StateBody, expiry: seq<int>, p: PendingState, ids: Ids, src: Source)
    requires |expiry| == |body.tabs| && Separate(l, ids) && HeldStays(p, ids, src)
    requires forall d :: d in BodyDeltas(body) ==> DeltaAt(p, KeyOf(d)) == Some(d)
    ensures Separate(Deliver(l, body, expiry, src), ids)
  {
    var ds := Deltas(body, expiry);
    forall d | d in ds ensures DeltaStays(d, By(src), ids) {
      var i :| 0 <= i < |ds| && ds[i] == d;
      assert UnstampAll(ds) == BodyDeltas(body);
      var u := Unstamp(d);
      assert BodyDeltas(body)[i] == u;
      assert DeltaAt(p, KeyOf(u)) == Some(u);
      assert DeltaStays(u, By(src), ids);
    }
    FoldSeparate(l, ds, src, ids);
  }

  lemma SendStays(s: System, a: Action, s': System, scope: Scope, ids: Ids, src: Source)
    requires a.SendOk? || a.SendFails?
    requires StaysInv(s, ids, src) && PendingInv(s, scope) && Next(s, a, s', src)
    ensures StaysInv(s', ids, src)
  {
    var f := s.flight.value;
    FirstBatch(f.todo, f.outgoing);
    DeliverSeparate(s.live, f.todo[0], a.expiry, f.outgoing, ids, src);
    if a.SendFails? { MergeStays(f.outgoing, s.pending, ids, src); }
  }

  lemma StaysStep(s: System, a: Action, s': System, scope: Scope, ids: Ids, src: Source)
    requires StaysInv(s, ids, src) && PendingInv(s, scope) && Next(s, a, s', src) && ActionStays(a, ids, src)
    ensures StaysInv(s', ids, src)
  {
    match a
    case Enqueue(d) => PutStays(s.pending, d, ids, src);
    case SendOk(_) => SendStays(s, a, s', scope, ids, src);
    case SendFails(_, _) => SendStays(s, a, s', scope, ids, src);
    case Reconcile(body, expiry, _) => ReceiveSeparate(s.live, Message(body, expiry, true, src), ids);
    case Others(m) =>
      ReceiveSeparate(s.live, m, ids);
      ReceiveSeparate(s.base, m, ids);
    case _ =>
  }

  // ----- Others' messages stay apart -----

  lemma ErasePart(l: Live, o: Owner, ids: Ids)
    ensures EraseExpiry(Part(l, o, ids)) == Part(EraseExpiry(l), o, ids)
  {
    var a, b := EraseExpiry(Part(l, o, ids)), Part(EraseExpiry(l), o, ids);
    assert a.secrets == b.secrets;
  }

  /** What a message makes of one part depends on that part alone, stamps aside. */
  lemma ReceiveAlike(a: Live, b: Live, m: Message, o: Owner, ids: Ids)
    requires WellFormed(m) && Stays(m, ids) && Separate(a, ids) && Separate(b, ids)
    requires Part(EraseExpiry(a), o, ids) == Part(EraseExpiry(b), o, ids)
    ensures Part(EraseExpiry(Receive(a, m)), o, ids) == Part(EraseExpiry(Receive(b, m)), o, ids)
  {
    ReceivePart(a, m, o, ids);
    ReceivePart(b, m, o, ids);
    ErasePart(Receive(a, m), o, ids);
    ErasePart(Receive(b, m), o, ids);
    ErasePart(a, o, ids);
    ErasePart(b, o, ids);
    EraseApplyState(Part(a, o, ids), m.body, m.expiry, m.authoritative, m.src);
    EraseApplyState(Part(b, o, ids), m.body, m.expiry, m.authoritative, m.src);
  }

  lemma ReadPartErased(l: Live, o: Owner, ids: Ids, k: Key)
    ensures Read(Part(EraseExpiry(l), o, ids), k) == if OwnerOf(k, ids) == o then Erase(Read(l, k)) else EmptyCell(k)
  {
    ReadPart(EraseExpiry(l), o, ids, k);
    ReadErase(l, k);
  }

  /** A key this extension does not name reads as in the history. */
  lemma UnnamedAlike(s: System, k: Key, scope: Scope, src: Source)
    requires Inv(s, scope, src) && k !in scope.keys
    ensures Erase(Read(s.live, k)) == Erase(Read(s.base, k))
  {
    assert CellInv(s, k, scope, src);
    UnnamedCell(s, k, scope, src);
    FoldAbsent(Erase(Read(s.base, k)), s.log, k, src);
  }

  lemma OthersAlike(s: System, o: Owner, scope: Scope, ids: Ids, src: Source)
    requires Inv(s, scope, src) && OwnKeys(scope, ids, src) && o != By(src)
    ensures Part(EraseExpiry(s.live), o, ids) == Part(EraseExpiry(s.base), o, ids)
  {
    var a, b := Part(EraseExpiry(s.live), o, ids), Part(EraseExpiry(s.base), o, ids);
    forall k ensures Read(a, k) == Read(b, k) {
      ReadPartErased(s.live, o, ids, k);
      ReadPartErased(s.base, o, ids, k);
      if OwnerOf(k, ids) == o { UnnamedAlike(s, k, scope, src); }
    }
    SameCells(a, b);
  }

  /** A message of another leaves the rows of everyone else as they are. */
  lemma ReceiveElsewhere(l: Live, m: Message, k: Key, ids: Ids)
    requires WellFormed(m) && Stays(m, ids) && Separate(l, ids) && OwnerOf(k, ids) != By(m.src)
    ensures Read(Receive(l, m), k) == Read(l, k)
  {
    var o := OwnerOf(k, ids);
    ReceivePart(l, m, o, ids);
    ReadPart(Receive(l, m), o, ids, k);
    ReadPart(l, o, ids, k);
  }

  lemma OthersApart(s: System, m: Message, scope: Scope, ids: Ids, src: Source)
    requires Inv(s, scope, src) && StaysInv(s, ids, src) && OwnKeys(scope, ids, src)
    requires WellFormed(m) && Stays(m, ids) && By(m.src) != By(src)
    ensures Apart(s, m, scope.keys)
  {
    forall k | k in scope.keys
      ensures Read(Receive(s.live, m), k) == Read(s.live, k) && Read(Receive(s.base, m), k) == Read(s.base, k)
    {
      ReceiveElsewhere(s.live, m, k, ids);
      ReceiveElsewhere(s.base, m, k, ids);
    }
    OthersAlike(s, By(m.src), scope, ids, src);
    ReceiveAlike(s.live, s.base, m, By(m.src), ids);
    forall k | k !in scope.keys ensures Erase(Read(Receive(s.live, m), k)) == Erase(Read(Receive(s.base, m), k)) {
      if OwnerOf(k, ids) == By(m.src) {
        ReadPartErased(Receive(s.live, m), By(m.src), ids, k);
        ReadPartErased(Receive(s.base, m), By(m.src), ids, k);
      } else {
        ReceiveElsewhere(s.live, m, k, ids);
        ReceiveElsewhere(s.base, m, k, ids);
        UnnamedAlike(s, k, scope, src);
      }
    }
  }

  // ----- Runs -----

  /** Windows and groups of one's own always fit; only tabs can be in the wrong table. */
  predicate TabsFit(l: Live, scope: Scope, src: Source) {
    forall k :: k in scope.keys && k.TabKey? ==> Fits(Read(l, k), k, scope.flag, src)
  }

  lemma OwnRowsFit(l: Live, scope: Scope, ids: Ids, src: Source)
    requires Separate(l, ids) && OwnKeys(scope, ids, src) && TabsFit(l, scope, src)
    ensures FitsLive(l, scope, src)
  {
    forall k | k in scope.keys ensures Fits(Read(l, k), k, scope.flag, src) {
      SeparateReads(l, ids, k);
    }
  }

  /** Everything a shared run is assumed to do. */
  ghost predicate SharedRun(trace: seq<System>, actions: seq<Action>, scope: Scope, ids: Ids, src: Source) {
    && Run(trace, actions, src) && Mindful(trace, actions, src) && Consistent(actions, scope)
    && (forall a :: a in actions ==> ActionStays(a, ids, src))
    && OwnKeys(scope, ids, src) && Separate(trace[0].live, ids) && TabsFit(trace[0].live, scope, src)
  }

  lemma SharedStep(s: System, a: Action, s': System, scope: Scope, ids: Ids, src: Source)
    requires Inv(s, scope, src) && StaysInv(s, ids, src) && OwnKeys(scope, ids, src)
    requires Next(s, a, s', src) && Consistent([a], scope) && ActionStays(a, ids, src)
    requires (a.Evict? ==> Harmless(s, src)) && (a.Reconcile? ==> SentShown(s, s', src))
    ensures CarefulStep(s, a, s', scope, src) && Inv(s', scope, src) && StaysInv(s', ids, src)
  {
    if a.Others? { OthersApart(s, a.m, scope, ids, src); }
    StepInv(s, a, s', scope, src);
    StaysStep(s, a, s', scope, ids, src);
  }

  lemma {:induction false} SharedInv(trace: seq<System>, actions: seq<Action>, scope: Scope, ids: Ids, src: Source,
                                     n: nat)
    requires SharedRun(trace, actions, scope, ids, src) && n < |trace|
    ensures Inv(trace[n], scope, src) && StaysInv(trace[n], ids, src)
    ensures n > 0 ==> CarefulStep(trace[n-1], actions[n-1], trace[n], scope, src)
  {
    if n == 0 {
      OwnRowsFit(trace[0].live, scope, ids, src);
      InitInv(trace[0], scope, src);
    } else {
      SharedInv(trace, actions, scope, ids, src, n - 1);
      assert Next(trace[n-1], actions[n-1], trace[n], src);
      assert actions[n-1] in actions;
      SharedStep(trace[n-1], actions[n-1], trace[n], scope, ids, src);
    }
  }

  /** Others that name only their own ids never touch what last write wins is about. */
  lemma SharedIsCareful(trace: seq<System>, actions: seq<Action>, scope: Scope, ids: Ids, src: Source)
    requires SharedRun(trace, actions, scope, ids, src)
    ensures Careful(trace, actions, scope, src) && FitsLive(trace[0].live, scope, src)
  {
    OwnRowsFit(trace[0].live, scope, ids, src);
    forall i | 0 <= i < |actions| ensures CarefulStep(trace[i], actions[i], trace[i+1], scope, src) {
      SharedInv(trace, actions, scope, ids, src, i + 1);
    }
  }

  lemma {:induction false} HeardStays(actions: seq<Action>, ids: Ids, src: Source)
    requires forall a :: a in actions ==> ActionStays(a, ids, src)
    ensures forall m :: m in Heard(actions) ==> Stays(m, ids)
  {
    if actions != [] {
      assert actions[|actions|-1] in actions;
      HeardStays(actions[..|actions|-1], ids, src);
    }
  }

  lemma {:induction false} EnqueuedStays(actions: seq<Action>, ids: Ids, src: Source)
    requires forall a :: a in actions ==> ActionStays(a, ids, src)
    ensures forall d :: d in Enqueued(actions) ==> DeltaStays(d, By(src), ids)
  {
    if actions != [] {
      assert actions[|actions|-1] in actions;
      EnqueuedStays(actions[..|actions|-1], ids, src);
    }
  }

  /** Nothing heard is one's own. */
  lemma {:induction false} HeardFromOthers(trace: seq<System>, actions: seq<Action>, src: Source, n: nat)
    requires Run(trace, actions, src) && n <= |actions|
    ensures Only(Heard(actions[..n]), By(src)) == []
  {
    if n > 0 {
      HeardFromOthers(trace, actions, src, n - 1);
      assert Next(trace[n-1], actions[n-1], trace[n], src);
      var now := actions[..n];
      assert now[..n-1] == actions[..n-1] && now[n-1] == actions[n-1];
      if actions[n-1].Others? { OnlySnoc(Heard(actions[..n-1]), actions[n-1].m, By(src)); }
    }
  }

  lemma OnlySnoc(ms: seq<Message>, m: Message, o: Owner)
    ensures Only(ms + [m], o) == if By(m.src) == o then Only(ms, o) + [m] else Only(ms, o)
  {
    assert (ms + [m])[..|ms|] == ms;
  }

  /** The rows one browser and profile would have, had it been alone and its events applied one by one. */
  function Alone(first: Live, actions: seq<Action>, o: Owner, ids: Ids, src: Source): Live {
    if o == By(src) then Fold(Part(first, o, ids), Enqueued(actions), src)
    else ReceiveAll(Part(first, o, ids), Only(Heard(actions), o))
  }

  lemma PartIsAlone(first: Live, actions: seq<Action>, o: Owner, ids: Ids, src: Source)
    requires Separate(first, ids) && forall a :: a in actions ==> ActionStays(a, ids, src)
    requires Only(Heard(actions), By(src)) == []
    ensures Part(Fold(ReceiveAll(first, Heard(actions)), Enqueued(actions), src), o, ids)
            == Alone(first, actions, o, ids, src)
  {
    HeardStays(actions, ids, src);
    EnqueuedStays(actions, ids, src);
    FoldPart(ReceiveAll(first, Heard(actions)), Enqueued(actions), src, o, ids);
    Isolated(first, Heard(actions), o, ids);
  }

  /**
   Last write wins for everyone at once. In every run of one extension's capture path, with the
   messages of any number of other browsers and profiles arriving at any moment, each naming only
   ids it minted: whenever nothing is pending or being sent, its own part of the agent's rows is
   what applying its deltas one by one makes of it, and every other part is what that one's own
   messages make of it.
   */
  lemma LastWriteWinsForEach(trace: seq<System>, actions: seq<Action>, scope: Scope, ids: Ids, src: Source, n: nat,
                             o: Owner)
    requires SharedRun(trace, actions, scope, ids, src) && n < |trace| && Quiescent(trace[n])
    requires forall a :: a in actions ==> !a.Reconcile?
    ensures EraseExpiry(Part(trace[n].live, o, ids)) == EraseExpiry(Alone(trace[0].live, actions[..n], o, ids, src))
  {
    SharedIsCareful(trace, actions, scope, ids, src);
    LastWriteWins(trace, actions, scope, src, n);
    HeardFromOthers(trace, actions, src, n);
    var so := actions[..n];
    forall a | a in so ensures ActionStays(a, ids, src) {
      assert a in actions;
    }
    PartIsAlone(trace[0].live, so, o, ids, src);
    var whole := Fold(ReceiveAll(trace[0].live, Heard(so)), Enqueued(so), src);
    ErasePart(trace[n].live, o, ids);
    ErasePart(whole, o, ids);
  }
}
