/**
 Browsers and profiles share the live tables without disturbing each other
 (agent/crates/sr-agent/src/server.rs): whatever the others send, the rows of one of them
 are the rows it would have had alone.
 */
module Isolation {
  import opened Options
  import opened Protocol
  import opened LiveTables
  import opened Reconcile

  datatype Owner = Owner(browser: string, profile: string)

  /** Which browser and profile minted each id. The live primary keys do not carry it. */
  datatype Ids = Ids(windows: string -> Owner, tabs: string -> Owner, groups: string -> Owner)

  datatype Message = Message(body: StateBody, expiry: seq<int>, authoritative: bool, src: Source)

  predicate WellFormed(m: Message) { |m.expiry| == |m.body.tabs| }

  function By(src: Source): Owner { Owner(src.browser, src.profile) }

  predicate DeltaStays(d: Delta, o: Owner, ids: Ids) {
    match d
    case Win(w) => ids.windows(w.windowId) == o
    case Tab(t, _) => ids.tabs(t.tabKey) == o && (t.op == Upsert ==> ids.windows(t.windowId) == o)
    case Grp(g) => ids.groups(g.groupKey) == o && (g.op == Upsert ==> ids.windows(g.windowId) == o)
  }

  /** A browser only names ids it minted itself. */
  predicate Stays(m: Message, ids: Ids)
    requires WellFormed(m)
  {
    forall d :: d in Deltas(m.body, m.expiry) ==> DeltaStays(d, By(m.src), ids)
  }

  predicate OwnWindows(l: Live, ids: Ids) {
    forall w :: w in l.windows ==> Owner(l.windows[w].browser, l.windows[w].profile) == ids.windows(w)
  }

  predicate OwnRows(l: Live, ids: Ids) {
    && (forall k :: k in l.tabs ==> ids.windows(l.tabs[k].windowId) == ids.tabs(k))
    && (forall k :: k in l.secrets ==> ids.windows(l.secrets[k].windowId) == ids.tabs(k))
    && (forall g :: g in l.groups ==> ids.windows(l.groups[g].windowId) == ids.groups(g))
  }

  predicate Separate(l: Live, ids: Ids) { OwnWindows(l, ids) && OwnRows(l, ids) }

  /** The rows of one browser and profile. */
  function Part(l: Live, o: Owner, ids: Ids): Live {
    Live(
      map w | w in l.windows && ids.windows(w) == o :: l.windows[w],
      map k | k in l.tabs && ids.tabs(k) == o :: l.tabs[k],
      map k | k in l.secrets && ids.tabs(k) == o :: l.secrets[k],
      map g | g in l.groups && ids.groups(g) == o :: l.groups[g],
      l.apps)
  }

  function Receive(l: Live, m: Message): Live
    requires WellFormed(m)
  {
    ApplyState(l, m.body, m.expiry, m.authoritative, m.src)
  }

  function ReceiveAll(l: Live, ms: seq<Message>): Live
    requires forall m :: m in ms ==> WellFormed(m)
  {
    if ms == [] then l else Receive(ReceiveAll(l, ms[..|ms|-1]), ms[|ms|-1])
  }

  function Only(ms: seq<Message>, o: Owner): (r: seq<Message>)
    ensures forall m :: m in r ==> m in ms && By(m.src) == o
  {
    if ms == [] then []
    else
      var rest := Only(ms[..|ms|-1], o);
      if By(ms[|ms|-1].src) == o then rest + [ms[|ms|-1]] else rest
  }

  // ----- One key at a time -----

  function OwnerOf(k: Key, ids: Ids): Owner {
    match k
    case WinKey(id) => ids.windows(id)
    case TabKey(id) => ids.tabs(id)
    case GrpKey(id) => ids.groups(id)
  }

  function EmptyCell(k: Key): Cell {
    match k
    case WinKey(_) => WinCell(None)
    case TabKey(_) => TabCell(None, None)
    case GrpKey(_) => GrpCell(None)
  }

  predicate SeparateCell(c: Cell, o: Owner, ids: Ids) {
    match c
    case WinCell(w) => w.Some? ==> Owner(w.value.browser, w.value.profile) == o
    case TabCell(t, p) => (t.Some? ==> ids.windows(t.value.windowId) == o)
      && (p.Some? ==> ids.windows(p.value.windowId) == o)
    case GrpCell(g) => g.Some? ==> ids.windows(g.value.windowId) == o
  }

  lemma ReadPart(l: Live, o: Owner, ids: Ids, k: Key)
    ensures Read(Part(l, o, ids), k) == if OwnerOf(k, ids) == o then Read(l, k) else EmptyCell(k)
  {
  }

  lemma SeparateReads(l: Live, ids: Ids, k: Key)
    requires Separate(l, ids)
    ensures SeparateCell(Read(l, k), OwnerOf(k, ids), ids)
  {
  }

  lemma SeparateFromReads(l: Live, ids: Ids)
    requires forall k :: SeparateCell(Read(l, k), OwnerOf(k, ids), ids)
    ensures Separate(l, ids)
  {
    forall w | w in l.windows ensures Owner(l.windows[w].browser, l.windows[w].profile) == ids.windows(w) {
      assert SeparateCell(Read(l, WinKey(w)), OwnerOf(WinKey(w), ids), ids);
    }
    forall k | k in l.tabs ensures ids.windows(l.tabs[k].windowId) == ids.tabs(k) {
      assert SeparateCell(Read(l, TabKey(k)), OwnerOf(TabKey(k), ids), ids);
    }
    forall k | k in l.secrets ensures ids.windows(l.secrets[k].windowId) == ids.tabs(k) {
      assert SeparateCell(Read(l, TabKey(k)), OwnerOf(TabKey(k), ids), ids);
    }
    forall g | g in l.groups ensures ids.windows(l.groups[g].windowId) == ids.groups(g) {
      assert SeparateCell(Read(l, GrpKey(g)), OwnerOf(GrpKey(g), ids), ids);
    }
  }

  lemma StepSeparate(c: Cell, d: Delta, src: Source, ids: Ids)
    requires SeparateCell(c, By(src), ids) && DeltaStays(d, By(src), ids)
    ensures SeparateCell(Step(c, d, src), By(src), ids)
  {
  }

  // ----- One delta -----

  lemma ApplySeparate(l: Live, d: Delta, src: Source, ids: Ids)
    requires Separate(l, ids) && DeltaStays(d, By(src), ids)
    ensures Separate(Apply(l, d, src), ids)
  {
    forall k ensures SeparateCell(Read(Apply(l, d, src), k), OwnerOf(k, ids), ids) {
      ReadApply(l, d, k, src);
      SeparateReads(l, ids, k);
      if KeyOf(d) == k { StepSeparate(Read(l, k), d, src, ids); }
    }
    SeparateFromReads(Apply(l, d, src), ids);
  }

  lemma ApplyPart(l: Live, d: Delta, src: Source, o: Owner, ids: Ids)
    requires DeltaStays(d, By(src), ids)
    ensures Part(Apply(l, d, src), o, ids) == if By(src) == o then Apply(Part(l, o, ids), d, src) else Part(l, o, ids)
  {
    var a := Part(Apply(l, d, src), o, ids);
    var b := if By(src) == o then Apply(Part(l, o, ids), d, src) else Part(l, o, ids);
    forall k ensures Read(a, k) == Read(b, k) {
      ReadPart(Apply(l, d, src), o, ids, k);
      ReadPart(l, o, ids, k);
      ReadApply(l, d, k, src);
      ReadApply(Part(l, o, ids), d, k, src);
    }
    ReadApply(l, d, KeyOf(d), src);
    ReadApply(Part(l, o, ids), d, KeyOf(d), src);
    SameCells(a, b);
  }

  // ----- Many deltas -----

  lemma {:induction false} FoldSeparate(l: Live, ds: seq<Delta>, src: Source, ids: Ids)
    requires Separate(l, ids) && forall d :: d in ds ==> DeltaStays(d, By(src), ids)
    ensures Separate(Fold(l, ds, src), ids)
  {
    if ds != [] {
      FoldSeparate(l, ds[..|ds|-1], src, ids);
      assert ds[|ds|-1] in ds;
      ApplySeparate(Fold(l, ds[..|ds|-1], src), ds[|ds|-1], src, ids);
    }
  }

  lemma {:induction false} FoldPart(l: Live, ds: seq<Delta>, src: Source, o: Owner, ids: Ids)
    requires forall d :: d in ds ==> DeltaStays(d, By(src), ids)
    ensures Part(Fold(l, ds, src), o, ids) == if By(src) == o then Fold(Part(l, o, ids), ds, src) else Part(l, o, ids)
  {
    if ds != [] {
      var n := |ds| - 1;
      FoldPart(l, ds[..n], src, o, ids);
      assert ds[n] in ds;
      ApplyPart(Fold(l, ds[..n], src), ds[n], src, o, ids);
    }
  }

  // ----- The reap -----

  lemma ReapSeparate(l: Live, body: StateBody, owned: set<string>, ids: Ids)
    requires Separate(l, ids)
    ensures Separate(Reap(l, body, owned), ids)
  {
  }

  lemma ReapPart(l: Live, body: StateBody, owned: set<string>, o: Owner, ids: Ids)
    ensures Part(Reap(l, body, owned), o, ids) == Reap(Part(l, o, ids), body, owned)
  {
    var a, b := Part(Reap(l, body, owned), o, ids), Reap(Part(l, o, ids), body, owned);
    assert a.windows == b.windows;
    assert a.tabs == b.tabs;
    assert a.secrets == b.secrets;
    assert a.groups == b.groups;
  }

  lemma OwnedPart(l: Live, o: Owner, ids: Ids)
    requires OwnWindows(l, ids)
    ensures Owned(Part(l, o, ids), o.browser, o.profile) == Owned(l, o.browser, o.profile)
  {
  }

  /** The reap of one browser takes nothing from another's part. */
  lemma ReapOther(l: Live, body: StateBody, src: Source, o: Owner, ids: Ids)
    requires Separate(l, ids) && By(src) != o
    ensures Part(Reap(l, body, Owned(l, src.browser, src.profile)), o, ids) == Part(l, o, ids)
  {
    var owned := Owned(l, src.browser, src.profile);
    forall w | w in owned ensures ids.windows(w) == By(src) {
    }
    var a, b := Part(Reap(l, body, owned), o, ids), Part(l, o, ids);
    assert a.windows == b.windows;
    assert a.tabs == b.tabs;
    assert a.secrets == b.secrets;
    assert a.groups == b.groups;
  }

  // ----- Messages and runs -----

  lemma ReceiveSeparate(l: Live, m: Message, ids: Ids)
    requires WellFormed(m) && Stays(m, ids) && Separate(l, ids)
    ensures Separate(Receive(l, m), ids)
  {
    var ds := Deltas(m.body, m.expiry);
    FoldSeparate(l, ds, m.src, ids);
    var folded := Fold(l, ds, m.src);
    ReapSeparate(folded, m.body, Owned(folded, m.src.browser, m.src.profile), ids);
  }

  lemma ReceivePart(l: Live, m: Message, o: Owner, ids: Ids)
    requires WellFormed(m) && Stays(m, ids) && Separate(l, ids)
    ensures Part(Receive(l, m), o, ids) == if By(m.src) == o then Receive(Part(l, o, ids), m) else Part(l, o, ids)
  {
    var ds := Deltas(m.body, m.expiry);
    var folded := Fold(l, ds, m.src);
    FoldSeparate(l, ds, m.src, ids);
    FoldPart(l, ds, m.src, o, ids);
    if m.authoritative {
      var owned := Owned(folded, m.src.browser, m.src.profile);
      if By(m.src) == o {
        ReapPart(folded, m.body, owned, o, ids);
        OwnedPart(folded, o, ids);
      } else {
        ReapOther(folded, m.body, m.src, o, ids);
      }
    }
  }

  lemma {:induction false} RunSeparate(l: Live, ms: seq<Message>, ids: Ids)
    requires Separate(l, ids)
    requires forall m :: m in ms ==> WellFormed(m) && Stays(m, ids)
    ensures Separate(ReceiveAll(l, ms), ids)
  {
    if ms != [] {
      RunSeparate(l, ms[..|ms|-1], ids);
      assert ms[|ms|-1] in ms;
      ReceiveSeparate(ReceiveAll(l, ms[..|ms|-1]), ms[|ms|-1], ids);
    }
  }

  lemma ReceiveAllSnoc(l: Live, ms: seq<Message>, m: Message)
    requires forall x :: x in ms + [m] ==> WellFormed(x)
    ensures forall x :: x in ms ==> WellFormed(x)
    ensures WellFormed(m)
    ensures ReceiveAll(l, ms + [m]) == Receive(ReceiveAll(l, ms), m)
  {
    assert m in ms + [m];
    assert (ms + [m])[..|ms|] == ms;
  }

  /**
   In every run of deltas, removes and reconciles from any number of browsers and profiles,
   each one's rows end up exactly as if it had been the only one talking.
   */
  lemma {:induction false} Isolated(l: Live, ms: seq<Message>, o: Owner, ids: Ids)
    requires Separate(l, ids)
    requires forall m :: m in ms ==> WellFormed(m) && Stays(m, ids)
    ensures Part(ReceiveAll(l, ms), o, ids) == ReceiveAll(Part(l, o, ids), Only(ms, o))
  {
    if ms != [] {
      var n := |ms| - 1;
      assert ms == ms[..n] + [ms[n]];
      assert ms[n] in ms;
      Isolated(l, ms[..n], o, ids);
      RunSeparate(l, ms[..n], ids);
      ReceivePart(ReceiveAll(l, ms[..n]), ms[n], o, ids);
      if By(ms[n].src) == o {
        ReceiveAllSnoc(Part(l, o, ids), Only(ms[..n], o), ms[n]);
      }
    }
  }

  // ----- Shared ids -----

  lemma ReceivedWindow(l: Live, m: Message, id: string)
    requires WellFormed(m) && AllUpserts(m.body)
    ensures var row := Lookup(Receive(l, m).windows, id);
      if id in LiveWindows(m.body) then
        && row.Some? && row.value.profile == m.src.profile
        && row.value.browser == (if id in l.windows then l.windows[id].browser else m.src.browser)
      else if m.authoritative && id in Owned(l, m.src.browser, m.src.profile) then row.None?
      else row == Lookup(l.windows, id)
  {
    Mentions(m.body, m.expiry, id);
    FoldIsLast(l, Deltas(m.body, m.expiry), m.src, id);
  }

  /**
   With a shared id it fails, for every window of one browser and profile and every message of
   another that names it: the row keeps its browser and takes the other's profile. Its owner
   loses it exactly if the profiles differ, and then a reconcile of the owner, which alone would
   remove the window, leaves it; the other gains it exactly if the browsers are the same.
   */
  lemma SharedIdsInterfere(l: Live, theirs: Message, mine: Message, id: string)
    requires WellFormed(theirs) && AllUpserts(theirs.body) && id in LiveWindows(theirs.body)
    requires WellFormed(mine) && AllUpserts(mine.body) && mine.authoritative && id !in LiveWindows(mine.body)
    requires id in Owned(l, mine.src.browser, mine.src.profile)
    ensures var after := Receive(l, theirs);
      && id in after.windows
      && after.windows[id].browser == mine.src.browser && after.windows[id].profile == theirs.src.profile
      && (id in Owned(after, mine.src.browser, mine.src.profile) <==> theirs.src.profile == mine.src.profile)
      && (id in Owned(after, theirs.src.browser, theirs.src.profile) <==> theirs.src.browser == mine.src.browser)
    ensures id !in Receive(l, mine).windows
    ensures id in Receive(Receive(l, theirs), mine).windows <==> theirs.src.profile != mine.src.profile
  {
    ReceivedWindow(l, theirs, id);
    ReceivedWindow(l, mine, id);
    ReceivedWindow(Receive(l, theirs), mine, id);
  }
}
