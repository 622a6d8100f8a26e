/**
 What a `full_state` leaves behind, from any prior state (`apply_state` with
 `reap_missing_for_browser`, agent/crates/sr-agent/src/server.rs).
 */
module Reconcile {
  import opened Options
  import opened Protocol
  import opened LiveTables
  import opened Coalescing

  predicate IsUpsert(d: Delta) {
    match d
    case Win(w) => w.op == Upsert
    case Tab(t, _) => t.op == Upsert
    case Grp(g) => g.op == Upsert
  }

  /** A `full_state` only ever reports what is open. */
  predicate AllUpserts(body: StateBody) {
    && (forall w :: w in body.windows ==> w.op == Upsert)
    && (forall t :: t in body.tabs ==> t.op == Upsert)
    && (forall g :: g in body.groups ==> g.op == Upsert)
  }

  predicate TabsNamePayloadWindows(body: StateBody) {
    forall t :: t in body.tabs ==> t.windowId in LiveWindows(body)
  }

  predicate GroupsNamePayloadWindows(body: StateBody) {
    forall g :: g in body.groups ==> g.windowId in LiveWindows(body)
  }

  // ----- The last mention decides -----

  function LastWindow(ds: seq<Delta>, id: string): Option<WindowDelta> {
    if ds == [] then None
    else
      var d := ds[|ds|-1];
      if d.Win? && d.w.windowId == id then Some(d.w) else LastWindow(ds[..|ds|-1], id)
  }

  function LastTab(ds: seq<Delta>, key: string, isPrivate: bool): (r: Option<Delta>)
    ensures r.Some? ==> r.value.Tab? && r.value in ds && r.value.t.tabKey == key && r.value.t.isPrivate == isPrivate
    ensures r.None? ==> forall d :: d in ds && d.Tab? && d.t.tabKey == key ==> d.t.isPrivate != isPrivate
  {
    if ds == [] then None
    else
      var d := ds[|ds|-1];
      assert ds == ds[..|ds|-1] + [d];
      if d.Tab? && d.t.tabKey == key && d.t.isPrivate == isPrivate then Some(d)
      else LastTab(ds[..|ds|-1], key, isPrivate)
  }

  function LastGroup(ds: seq<Delta>, key: string): (r: Option<GroupDelta>)
    ensures r.Some? ==> Grp(r.value) in ds && r.value.groupKey == key
    ensures r.None? ==> forall d :: d in ds && d.Grp? ==> d.g.groupKey != key
  {
    if ds == [] then None
    else
      var d := ds[|ds|-1];
      assert ds == ds[..|ds|-1] + [d];
      if d.Grp? && d.g.groupKey == key then Some(d.g) else LastGroup(ds[..|ds|-1], key)
  }

  function WindowAfter(last: Option<WindowDelta>, src: Source, before: Option<WindowRow>): Option<WindowRow> {
    if last.Some? then Some(WindowRowOf(last.value, src, before)) else before
  }

  function TabAfter(last: Option<Delta>, before: Option<TabRow>): Option<TabRow>
    requires last.Some? ==> last.value.Tab?
  {
    if last.Some? then NormalTabOf(last.value.t) else before
  }

  function SecretAfter(last: Option<Delta>, src: Source, before: Option<PrivateTab>): Option<PrivateTab>
    requires last.Some? ==> last.value.Tab?
  {
    if last.Some? && src.capturePrivate then Some(PrivateTabOf(last.value.t, last.value.expiresAt)) else before
  }

  function GroupAfter(last: Option<GroupDelta>, before: Option<GroupRow>): Option<GroupRow> {
    if last.Some? then Some(GroupRow(last.value.windowId, last.value.title, last.value.color, last.value.collapsed))
    else before
  }

  lemma {:induction false} FoldWindow(l: Live, ds: seq<Delta>, src: Source, k: string)
    requires forall d :: d in ds ==> IsUpsert(d)
    ensures Lookup(Fold(l, ds, src).windows, k) == WindowAfter(LastWindow(ds, k), src, Lookup(l.windows, k))
  {
    if ds != [] {
      var n := |ds| - 1;
      FoldWindow(l, ds[..n], src, k);
      assert IsUpsert(ds[n]);
      ReadApply(Fold(l, ds[..n], src), ds[n], WinKey(k), src);
    }
  }

  lemma {:induction false} FoldTab(l: Live, ds: seq<Delta>, src: Source, k: string)
    requires forall d :: d in ds ==> IsUpsert(d)
    ensures Lookup(Fold(l, ds, src).tabs, k) == TabAfter(LastTab(ds, k, false), Lookup(l.tabs, k))
    ensures Lookup(Fold(l, ds, src).secrets, k) == SecretAfter(LastTab(ds, k, true), src, Lookup(l.secrets, k))
  {
    if ds != [] {
      var n := |ds| - 1;
      FoldTab(l, ds[..n], src, k);
      assert IsUpsert(ds[n]);
      ReadApply(Fold(l, ds[..n], src), ds[n], TabKey(k), src);
    }
  }

  lemma {:induction false} FoldGroup(l: Live, ds: seq<Delta>, src: Source, k: string)
    requires forall d :: d in ds ==> IsUpsert(d)
    ensures Lookup(Fold(l, ds, src).groups, k) == GroupAfter(LastGroup(ds, k), Lookup(l.groups, k))
  {
    if ds != [] {
      var n := |ds| - 1;
      FoldGroup(l, ds[..n], src, k);
      assert IsUpsert(ds[n]);
      ReadApply(Fold(l, ds[..n], src), ds[n], GrpKey(k), src);
    }
  }

  /** Under each key, a fold of upserts leaves what its last mention says, and else what was there. */
  lemma FoldIsLast(l: Live, ds: seq<Delta>, src: Source, k: string)
    requires forall d :: d in ds ==> IsUpsert(d)
    ensures var r := Fold(l, ds, src);
      && Lookup(r.windows, k) == WindowAfter(LastWindow(ds, k), src, Lookup(l.windows, k))
      && Lookup(r.tabs, k) == TabAfter(LastTab(ds, k, false), Lookup(l.tabs, k))
      && Lookup(r.secrets, k) == SecretAfter(LastTab(ds, k, true), src, Lookup(l.secrets, k))
      && Lookup(r.groups, k) == GroupAfter(LastGroup(ds, k), Lookup(l.groups, k))
  {
    FoldWindow(l, ds, src, k);
    FoldTab(l, ds, src, k);
    FoldGroup(l, ds, src, k);
  }

  // ----- Messages and their deltas -----

  lemma DeltasOf(body: StateBody, expiry: seq<int>)
    requires |expiry| == |body.tabs|
    ensures forall d :: d in Deltas(body, expiry) && d.Win? ==> d.w in body.windows
    ensures forall d :: d in Deltas(body, expiry) && d.Tab? ==> d.t in body.tabs
    ensures forall d :: d in Deltas(body, expiry) && d.Grp? ==> d.g in body.groups
    ensures forall w :: w in body.windows ==> Win(w) in Deltas(body, expiry)
    ensures forall t :: t in body.tabs ==> exists e :: Tab(t, e) in Deltas(body, expiry)
    ensures forall g :: g in body.groups ==> Grp(g) in Deltas(body, expiry)
  {
    var ds := Deltas(body, expiry);
    var n, m := |body.windows|, |body.tabs|;
    forall w | w in body.windows ensures Win(w) in ds {
      var i :| 0 <= i < n && body.windows[i] == w;
      assert ds[i] == Win(w);
    }
    forall t | t in body.tabs ensures exists e :: Tab(t, e) in ds {
      var i :| 0 <= i < m && body.tabs[i] == t;
      assert ds[n + i] == Tab(t, expiry[i]);
    }
    forall g | g in body.groups ensures Grp(g) in ds {
      var i :| 0 <= i < |body.groups| && body.groups[i] == g;
      assert ds[n + m + i] == Grp(g);
    }
  }

  lemma {:induction false} LastWindowIs(ds: seq<Delta>, id: string)
    ensures LastWindow(ds, id).Some? ==> Win(LastWindow(ds, id).value) in ds && LastWindow(ds, id).value.windowId == id
    ensures LastWindow(ds, id).None? ==> forall d :: d in ds && d.Win? ==> d.w.windowId != id
  {
    if ds != [] {
      assert ds == ds[..|ds|-1] + [ds[|ds|-1]];
      LastWindowIs(ds[..|ds|-1], id);
    }
  }

  lemma Mentions(body: StateBody, expiry: seq<int>, k: string)
    requires |expiry| == |body.tabs| && AllUpserts(body)
    ensures var ds := Deltas(body, expiry);
      && (forall d :: d in ds ==> IsUpsert(d))
      && (LastWindow(ds, k).Some? <==> k in LiveWindows(body))
      && (LastTab(ds, k, false).Some? || LastTab(ds, k, true).Some? <==> k in LiveTabs(body))
      && (LastGroup(ds, k).Some? <==> exists g :: g in body.groups && g.groupKey == k)
      && (forall p :: LastTab(ds, k, p).Some? ==> LastTab(ds, k, p).value.t in body.tabs)
      && (LastGroup(ds, k).Some? ==> LastGroup(ds, k).value in body.groups)
  {
    var ds := Deltas(body, expiry);
    DeltasOf(body, expiry);
    LastWindowIs(ds, k);
    if k in LiveWindows(body) {
      var w :| w in body.windows && w.op == Upsert && w.windowId == k;
      assert Win(w) in ds;
    }
    if k in LiveTabs(body) {
      var t :| t in body.tabs && t.op == Upsert && t.tabKey == k;
      var e :| Tab(t, e) in ds;
    }
    if LastTab(ds, k, false).Some? { assert LastTab(ds, k, false).value.t in body.tabs; }
    if LastTab(ds, k, true).Some? { assert LastTab(ds, k, true).value.t in body.tabs; }
    if g :| g in body.groups && g.groupKey == k { assert Grp(g) in ds; }
  }

  // ----- The reap -----

  /** On record for the reporter. */
  predicate Mine(l: Live, w: string, src: Source) {
    w in l.windows && l.windows[w].browser == src.browser && l.windows[w].profile == src.profile
  }

  ghost predicate WindowReported(body: StateBody, w: string) {
    exists d :: d in body.windows && d.op == Upsert && d.windowId == w
  }

  ghost predicate TabReported(body: StateBody, k: string) {
    exists d :: d in body.tabs && d.op == Upsert && d.tabKey == k
  }

  /** A row of a window that went, or one not reported of a window that stays. */
  ghost predicate Gone(l: Live, body: StateBody, src: Source, windowId: string, k: string) {
    Mine(l, windowId, src) && !(WindowReported(body, windowId) && TabReported(body, k))
  }

  /**
   What an authoritative message takes away once its deltas are in: of the reporter's windows
   those it does not report, with everything under them; of the tabs under the others, of either
   kind, those it does not report; and of nobody else anything.
   */
  lemma ReapExactly(l: Live, body: StateBody, expiry: seq<int>, src: Source, k: string)
    requires |expiry| == |body.tabs|
    ensures var all, left := Fold(l, Deltas(body, expiry), src), ApplyState(l, body, expiry, true, src);
      && (k in left.windows <==> k in all.windows && !(Mine(all, k, src) && !WindowReported(body, k)))
      && (k in left.tabs <==> k in all.tabs && !Gone(all, body, src, all.tabs[k].windowId, k))
      && (k in left.secrets <==> k in all.secrets && !Gone(all, body, src, all.secrets[k].windowId, k))
      && (k in left.groups <==>
            && k in all.groups
            && !(Mine(all, all.groups[k].windowId, src) && !WindowReported(body, all.groups[k].windowId)))
    ensures var all, left := Fold(l, Deltas(body, expiry), src), ApplyState(l, body, expiry, true, src);
      && (k in left.windows ==> left.windows[k] == all.windows[k])
      && (k in left.tabs ==> left.tabs[k] == all.tabs[k])
      && (k in left.secrets ==> left.secrets[k] == all.secrets[k])
      && (k in left.groups ==> left.groups[k] == all.groups[k])
      && left.apps == all.apps
  {
  }

  // ----- Windows -----

  function WindowsOf(l: Live, browser: string, profile: string): map<string, WindowRow> {
    map w | w in l.windows && l.windows[w].browser == browser && l.windows[w].profile == profile :: l.windows[w]
  }

  predicate HeldByAnother(l: Live, w: string, browser: string) { w in l.windows && l.windows[w].browser != browser }

  /** A payload window never changes hands: the upsert does not rewrite `browser`. */
  predicate NoneHeldByAnother(l: Live, body: StateBody, browser: string) {
    forall w :: w in LiveWindows(body) ==> !HeldByAnother(l, w, browser)
  }

  lemma WindowsAfter(l: Live, body: StateBody, expiry: seq<int>, src: Source, w: string)
    requires |expiry| == |body.tabs| && AllUpserts(body)
    ensures var after := ApplyState(l, body, expiry, true, src); var ds := Deltas(body, expiry);
      && (w in LiveWindows(body) <==> LastWindow(ds, w).Some?)
      && Lookup(after.windows, w)
         == (if w in LiveWindows(body) then Some(WindowRowOf(LastWindow(ds, w).value, src, Lookup(l.windows, w)))
             else if w in Owned(l, src.browser, src.profile) then None
             else Lookup(l.windows, w))
      && Lookup(Fold(NOTHING, ds, src).windows, w)
         == (if w in LiveWindows(body) then Some(WindowRowOf(LastWindow(ds, w).value, src, None)) else None)
  {
    var ds := Deltas(body, expiry);
    Mentions(body, expiry, w);
    FoldIsLast(l, ds, src, w);
    FoldIsLast(NOTHING, ds, src, w);
  }

  /**
   The windows on record for the reporting browser and profile are exactly the payload's, each
   as its last delta says, if and only if no payload window was held by another browser.
   */
  lemma WindowsExactly(l: Live, body: StateBody, expiry: seq<int>, src: Source)
    requires |expiry| == |body.tabs| && AllUpserts(body)
    ensures var after := ApplyState(l, body, expiry, true, src);
      WindowsOf(after, src.browser, src.profile) == Fold(NOTHING, Deltas(body, expiry), src).windows
      <==> NoneHeldByAnother(l, body, src.browser)
  {
    var after := ApplyState(l, body, expiry, true, src);
    var mine := WindowsOf(after, src.browser, src.profile);
    var reported := Fold(NOTHING, Deltas(body, expiry), src).windows;
    if NoneHeldByAnother(l, body, src.browser) {
      forall w ensures Lookup(mine, w) == Lookup(reported, w) {
        WindowsAfter(l, body, expiry, src, w);
      }
      SameMap(mine, reported);
    } else {
      var w :| w in LiveWindows(body) && HeldByAnother(l, w, src.browser);
      WindowsAfter(l, body, expiry, src, w);
      assert w in reported && w !in mine;
    }
  }

  // ----- Tabs -----

  function TabsUnder(l: Live, windows: set<string>): map<string, TabRow> {
    map k | k in l.tabs && l.tabs[k].windowId in windows :: l.tabs[k]
  }

  function SecretsUnder(l: Live, windows: set<string>): map<string, PrivateTab> {
    map k | k in l.secrets && l.secrets[k].windowId in windows :: l.secrets[k]
  }

  function GroupsUnder(l: Live, windows: set<string>): map<string, GroupRow> {
    map g | g in l.groups && l.groups[g].windowId in windows :: l.groups[g]
  }

  predicate Reports(body: StateBody, key: string, isPrivate: bool) {
    exists t :: t in body.tabs && t.tabKey == key && t.isPrivate == isPrivate
  }

  /** The reap passes over a row whose key is reported, of either kind, or whose window another browser holds. */
  predicate Spared(l: Live, body: StateBody, src: Source, windowId: string, k: string) {
    windowId in LiveWindows(body) && (k in LiveTabs(body) || HeldByAnother(l, windowId, src.browser))
  }

  /** A row the reap spares though the payload does not write it. */
  predicate StaleTab(l: Live, body: StateBody, src: Source, k: string) {
    k in l.tabs && Spared(l, body, src, l.tabs[k].windowId, k) && !Reports(body, k, false)
  }

  predicate StaleSecret(l: Live, body: StateBody, src: Source, k: string) {
    k in l.secrets && Spared(l, body, src, l.secrets[k].windowId, k) && !(src.capturePrivate && Reports(body, k, true))
  }

  lemma LastReports(body: StateBody, expiry: seq<int>, k: string, isPrivate: bool)
    requires |expiry| == |body.tabs|
    ensures LastTab(Deltas(body, expiry), k, isPrivate).Some? <==> Reports(body, k, isPrivate)
  {
    var ds := Deltas(body, expiry);
    DeltasOf(body, expiry);
    var last := LastTab(ds, k, isPrivate);
    if last.Some? {
      assert last.value.t in body.tabs;
    }
    forall t | t in body.tabs && t.tabKey == k && t.isPrivate == isPrivate ensures last.Some? {
      var e :| Tab(t, e) in ds;
    }
  }

  /** A payload window is on record for the reporter once the deltas are in, unless another browser holds it. */
  lemma PayloadOwned(l: Live, body: StateBody, expiry: seq<int>, src: Source)
    requires |expiry| == |body.tabs| && AllUpserts(body)
    ensures var owned := Owned(Fold(l, Deltas(body, expiry), src), src.browser, src.profile);
      forall w :: w in LiveWindows(body) ==> (w in owned <==> !HeldByAnother(l, w, src.browser))
  {
    var owned := Owned(Fold(l, Deltas(body, expiry), src), src.browser, src.profile);
    forall w | w in LiveWindows(body) ensures w in owned <==> !HeldByAnother(l, w, src.browser) {
      Mentions(body, expiry, w);
      FoldIsLast(l, Deltas(body, expiry), src, w);
    }
  }

  lemma TabAt(l: Live, body: StateBody, expiry: seq<int>, src: Source, k: string)
    requires |expiry| == |body.tabs| && AllUpserts(body) && TabsNamePayloadWindows(body)
    ensures Lookup(TabsUnder(ApplyState(l, body, expiry, true, src), LiveWindows(body)), k)
            == if StaleTab(l, body, src, k) then Some(l.tabs[k])
               else Lookup(Fold(NOTHING, Deltas(body, expiry), src).tabs, k)
    ensures StaleTab(l, body, src, k) ==> k !in Fold(NOTHING, Deltas(body, expiry), src).tabs
  {
    var ds := Deltas(body, expiry);
    PayloadOwned(l, body, expiry, src);
    Mentions(body, expiry, k);
    LastReports(body, expiry, k, false);
    FoldIsLast(l, ds, src, k);
    FoldIsLast(NOTHING, ds, src, k);
  }

  lemma SecretAt(l: Live, body: StateBody, expiry: seq<int>, src: Source, k: string)
    requires |expiry| == |body.tabs| && AllUpserts(body) && TabsNamePayloadWindows(body)
    ensures Lookup(SecretsUnder(ApplyState(l, body, expiry, true, src), LiveWindows(body)), k)
            == if StaleSecret(l, body, src, k) then Some(l.secrets[k])
               else Lookup(Fold(NOTHING, Deltas(body, expiry), src).secrets, k)
    ensures StaleSecret(l, body, src, k) ==> k !in Fold(NOTHING, Deltas(body, expiry), src).secrets
  {
    var ds := Deltas(body, expiry);
    PayloadOwned(l, body, expiry, src);
    Mentions(body, expiry, k);
    LastReports(body, expiry, k, true);
    FoldIsLast(l, ds, src, k);
    FoldIsLast(NOTHING, ds, src, k);
  }

  /**
   From any prior state: the tabs under the payload's windows are exactly what the payload says
   on its own, if and only if no row waits in the table the payload does not write, or,
   unreported, under one of its windows that another browser holds.
   */
  lemma TabsExactly(l: Live, body: StateBody, expiry: seq<int>, src: Source)
    requires |expiry| == |body.tabs| && AllUpserts(body) && TabsNamePayloadWindows(body)
    ensures var after := ApplyState(l, body, expiry, true, src); var alone := Fold(NOTHING, Deltas(body, expiry), src);
      && (TabsUnder(after, LiveWindows(body)) == alone.tabs <==> forall k :: !StaleTab(l, body, src, k))
      && (SecretsUnder(after, LiveWindows(body)) == alone.secrets <==> forall k :: !StaleSecret(l, body, src, k))
  {
    var after := ApplyState(l, body, expiry, true, src);
    var alone := Fold(NOTHING, Deltas(body, expiry), src);
    var tabs, secrets := TabsUnder(after, LiveWindows(body)), SecretsUnder(after, LiveWindows(body));
    forall k ensures Lookup(tabs, k) == if StaleTab(l, body, src, k) then Some(l.tabs[k]) else Lookup(alone.tabs, k)
             ensures StaleTab(l, body, src, k) ==> Lookup(tabs, k) != Lookup(alone.tabs, k)
    {
      TabAt(l, body, expiry, src, k);
    }
    forall k ensures Lookup(secrets, k)
                     == if StaleSecret(l, body, src, k) then Some(l.secrets[k]) else Lookup(alone.secrets, k)
             ensures StaleSecret(l, body, src, k) ==> Lookup(secrets, k) != Lookup(alone.secrets, k)
    {
      SecretAt(l, body, expiry, src, k);
    }
    if forall k :: !StaleTab(l, body, src, k) { SameMap(tabs, alone.tabs); }
    if forall k :: !StaleSecret(l, body, src, k) { SameMap(secrets, alone.secrets); }
  }

  /** A group of a window that stays open, no longer reported. */
  predicate StaleGroup(l: Live, body: StateBody, g: string) {
    g in l.groups && l.groups[g].windowId in LiveWindows(body) && !exists d :: d in body.groups && d.groupKey == g
  }

  lemma GroupAt(l: Live, body: StateBody, expiry: seq<int>, src: Source, g: string)
    requires |expiry| == |body.tabs| && AllUpserts(body) && GroupsNamePayloadWindows(body)
    ensures Lookup(GroupsUnder(ApplyState(l, body, expiry, true, src), LiveWindows(body)), g)
            == if StaleGroup(l, body, g) then Some(l.groups[g])
               else Lookup(Fold(NOTHING, Deltas(body, expiry), src).groups, g)
    ensures StaleGroup(l, body, g) ==> g !in Fold(NOTHING, Deltas(body, expiry), src).groups
  {
    Mentions(body, expiry, g);
    FoldIsLast(l, Deltas(body, expiry), src, g);
    FoldIsLast(NOTHING, Deltas(body, expiry), src, g);
  }

  /** A group of a window that stays open is never reaped, so only unreported groups make the difference. */
  lemma GroupsExactly(l: Live, body: StateBody, expiry: seq<int>, src: Source)
    requires |expiry| == |body.tabs| && AllUpserts(body) && GroupsNamePayloadWindows(body)
    ensures var after := ApplyState(l, body, expiry, true, src); var alone := Fold(NOTHING, Deltas(body, expiry), src);
      GroupsUnder(after, LiveWindows(body)) == alone.groups <==> forall g :: !StaleGroup(l, body, g)
  {
    var after := ApplyState(l, body, expiry, true, src);
    var alone := Fold(NOTHING, Deltas(body, expiry), src);
    var groups := GroupsUnder(after, LiveWindows(body));
    forall g ensures Lookup(groups, g) == if StaleGroup(l, body, g) then Some(l.groups[g]) else Lookup(alone.groups, g)
             ensures StaleGroup(l, body, g) ==> Lookup(groups, g) != Lookup(alone.groups, g)
    {
      GroupAt(l, body, expiry, src, g);
    }
    if forall g :: !StaleGroup(l, body, g) { SameMap(groups, alone.groups); }
  }

  // ----- Expiry stamps -----

  lemma UnstampDeltas(body: StateBody, expiry: seq<int>)
    requires |expiry| == |body.tabs|
    ensures UnstampAll(Deltas(body, expiry)) == Deltas(body, Stamps(body))
  {
  }

  lemma EraseFold(l: Live, ds: seq<Delta>, src: Source)
    ensures EraseExpiry(Fold(l, ds, src)) == Fold(EraseExpiry(l), UnstampAll(ds), src)
  {
    var a, b := EraseExpiry(Fold(l, ds, src)), Fold(EraseExpiry(l), UnstampAll(ds), src);
    forall k ensures Read(a, k) == Read(b, k) {
      ReadErase(Fold(l, ds, src), k);
      ReadErase(l, k);
      ReadFold(l, ds, k, src);
      ReadFold(EraseExpiry(l), UnstampAll(ds), k, src);
      EraseFoldCell(Read(l, k), ds, k, src);
    }
    ReadFold(l, ds, WinKey(""), src);
    ReadFold(EraseExpiry(l), UnstampAll(ds), WinKey(""), src);
    SameCells(a, b);
  }

  lemma EraseReap(l: Live, body: StateBody, owned: set<string>)
    ensures EraseExpiry(Reap(l, body, owned)) == Reap(EraseExpiry(l), body, owned)
  {
    var a, b := EraseExpiry(Reap(l, body, owned)), Reap(EraseExpiry(l), body, owned);
    assert a.secrets == b.secrets;
  }

  /** What a message leaves does not depend on the stamps, the stamps of private rows aside. */
  lemma EraseApplyState(l: Live, body: StateBody, expiry: seq<int>, authoritative: bool, src: Source)
    requires |expiry| == |body.tabs|
    ensures EraseExpiry(ApplyState(l, body, expiry, authoritative, src))
            == ApplyState(EraseExpiry(l), body, Stamps(body), authoritative, src)
  {
    var folded := Fold(l, Deltas(body, expiry), src);
    EraseFold(l, Deltas(body, expiry), src);
    UnstampDeltas(body, expiry);
    EraseReap(folded, body, Owned(folded, src.browser, src.profile));
  }

  // ----- Twice is once -----

  /** The windows on record for the reporter that the payload no longer reports. */
  function Closed(l: Live, body: StateBody, src: Source): set<string> {
    Owned(l, src.browser, src.profile) - LiveWindows(body)
  }

  function LastTabOf(body: StateBody, k: string, isPrivate: bool): (r: Option<Delta>)
    ensures r.Some? ==> r.value.Tab?
  {
    LastTab(Deltas(body, Stamps(body)), k, isPrivate)
  }

  function LastGroupOf(body: StateBody, k: string): Option<GroupDelta> {
    LastGroup(Deltas(body, Stamps(body)), k)
  }

  predicate TabNamesClosed(l: Live, body: StateBody, src: Source, k: string) {
    var last := LastTabOf(body, k, false);
    last.Some? && last.value.t.windowId in Closed(l, body, src)
  }

  predicate SecretNamesClosed(l: Live, body: StateBody, src: Source, k: string) {
    var last := LastTabOf(body, k, true);
    src.capturePrivate && last.Some? && last.value.t.windowId in Closed(l, body, src)
  }

  predicate GroupNamesClosed(l: Live, body: StateBody, src: Source, k: string) {
    var last := LastGroupOf(body, k);
    last.Some? && last.value.windowId in Closed(l, body, src)
  }

  /**
   The last mention of some tab (a private one only while private windows are captured) or group
   names a closed window.
   */
  predicate NamesClosed(l: Live, body: StateBody, src: Source, k: string) {
    TabNamesClosed(l, body, src, k) || SecretNamesClosed(l, body, src, k) || GroupNamesClosed(l, body, src, k)
  }

  /** The windows on record that are not reported are the same before and after the deltas. */
  lemma ClosedByFold(l: Live, body: StateBody, src: Source)
    requires AllUpserts(body)
    ensures var owned := Owned(Fold(l, Deltas(body, Stamps(body)), src), src.browser, src.profile);
      forall w :: w in Closed(l, body, src) <==> w in owned && w !in LiveWindows(body)
  {
    var ds := Deltas(body, Stamps(body));
    forall w | w !in LiveWindows(body) ensures Lookup(Fold(l, ds, src).windows, w) == Lookup(l.windows, w) {
      Mentions(body, Stamps(body), w);
      FoldIsLast(l, ds, src, w);
    }
    var owned := Owned(Fold(l, ds, src), src.browser, src.profile);
    forall w ensures w in Closed(l, body, src) <==> w in owned && w !in LiveWindows(body) {
      assert w !in LiveWindows(body) ==> Lookup(Fold(l, ds, src).windows, w) == Lookup(l.windows, w);
    }
  }

  /** After a reconcile no window on record is unreported. */
  lemma NoneClosedAfter(l: Live, body: StateBody, src: Source)
    requires AllUpserts(body)
    ensures Closed(ApplyState(l, body, Stamps(body), true, src), body, src) == {}
  {
  }

  lemma MentionedTabAt(l: Live, body: StateBody, src: Source, k: string)
    requires AllUpserts(body) && LastTabOf(body, k, false).Some?
    ensures Lookup(ApplyState(l, body, Stamps(body), true, src).tabs, k)
            == if TabNamesClosed(l, body, src, k) then None else TabAfter(LastTabOf(body, k, false), None)
  {
    Mentions(body, Stamps(body), k);
    FoldIsLast(l, Deltas(body, Stamps(body)), src, k);
    ClosedByFold(l, body, src);
  }

  lemma MentionedSecretAt(l: Live, body: StateBody, src: Source, k: string)
    requires AllUpserts(body) && LastTabOf(body, k, true).Some? && src.capturePrivate
    ensures Lookup(ApplyState(l, body, Stamps(body), true, src).secrets, k)
            == if SecretNamesClosed(l, body, src, k) then None else SecretAfter(LastTabOf(body, k, true), src, None)
  {
    Mentions(body, Stamps(body), k);
    FoldIsLast(l, Deltas(body, Stamps(body)), src, k);
    ClosedByFold(l, body, src);
  }

  lemma MentionedGroupAt(l: Live, body: StateBody, src: Source, k: string)
    requires AllUpserts(body) && LastGroupOf(body, k).Some?
    ensures Lookup(ApplyState(l, body, Stamps(body), true, src).groups, k)
            == if GroupNamesClosed(l, body, src, k) then None else GroupAfter(LastGroupOf(body, k), None)
  {
    Mentions(body, Stamps(body), k);
    FoldIsLast(l, Deltas(body, Stamps(body)), src, k);
    ClosedByFold(l, body, src);
  }

  /** A mentioned row is reaped by its own payload exactly if it names a closed window. */
  lemma MentionedAt(l: Live, body: StateBody, src: Source, k: string)
    requires AllUpserts(body)
    ensures var after := ApplyState(l, body, Stamps(body), true, src);
      && (LastTabOf(body, k, false).Some? ==>
            Lookup(after.tabs, k)
            == if TabNamesClosed(l, body, src, k) then None else TabAfter(LastTabOf(body, k, false), None))
      && (LastTabOf(body, k, true).Some? && src.capturePrivate ==>
            Lookup(after.secrets, k)
            == if SecretNamesClosed(l, body, src, k) then None else SecretAfter(LastTabOf(body, k, true), src, None))
      && (LastGroupOf(body, k).Some? ==>
            Lookup(after.groups, k)
            == if GroupNamesClosed(l, body, src, k) then None else GroupAfter(LastGroupOf(body, k), None))
  {
    if LastTabOf(body, k, false).Some? { MentionedTabAt(l, body, src, k); }
    if LastTabOf(body, k, true).Some? && src.capturePrivate { MentionedSecretAt(l, body, src, k); }
    if LastGroupOf(body, k).Some? { MentionedGroupAt(l, body, src, k); }
  }

  lemma WindowsStay(l: Live, body: StateBody, src: Source, w: string)
    requires AllUpserts(body)
    ensures var after := ApplyState(l, body, Stamps(body), true, src);
      Lookup(Fold(after, Deltas(body, Stamps(body)), src).windows, w) == Lookup(after.windows, w)
  {
    var after := ApplyState(l, body, Stamps(body), true, src);
    Mentions(body, Stamps(body), w);
    WindowsAfter(l, body, Stamps(body), src, w);
    FoldIsLast(after, Deltas(body, Stamps(body)), src, w);
  }

  /** A row the payload does not mention is treated by the second reconcile as by the first. */
  lemma UnmentionedAt(l: Live, body: StateBody, src: Source, k: string)
    requires AllUpserts(body)
    ensures var after := ApplyState(l, body, Stamps(body), true, src);
      var again := ApplyState(after, body, Stamps(body), true, src);
      && Lookup(again.windows, k) == Lookup(after.windows, k)
      && (LastTabOf(body, k, false).None? ==> Lookup(again.tabs, k) == Lookup(after.tabs, k))
      && (LastTabOf(body, k, true).None? || !src.capturePrivate ==>
            Lookup(again.secrets, k) == Lookup(after.secrets, k))
      && (LastGroupOf(body, k).None? ==> Lookup(again.groups, k) == Lookup(after.groups, k))
  {
    var ds := Deltas(body, Stamps(body));
    var after := ApplyState(l, body, Stamps(body), true, src);
    var folded, refolded := Fold(l, ds, src), Fold(after, ds, src);
    FoldIsLast(after, ds, src, k) by { Mentions(body, Stamps(body), k); }
    forall w ensures Lookup(refolded.windows, w) == Lookup(after.windows, w) {
      WindowsStay(l, body, src, w);
    }
    SameMap(refolded.windows, after.windows);
    var owned, ownedAgain := Owned(folded, src.browser, src.profile), Owned(refolded, src.browser, src.profile);
    assert forall w :: w in ownedAgain ==> w in owned && w in LiveWindows(body);
  }

  /** A row reaped though it was mentioned is written back by the second reconcile; every other row is as it was. */
  lemma TwiceAt(l: Live, body: StateBody, src: Source, k: string)
    requires AllUpserts(body)
    ensures var after := ApplyState(l, body, Stamps(body), true, src);
      var again := ApplyState(after, body, Stamps(body), true, src);
      && Lookup(again.windows, k) == Lookup(after.windows, k)
      && (if TabNamesClosed(l, body, src, k) then k !in after.tabs && k in again.tabs
          else Lookup(again.tabs, k) == Lookup(after.tabs, k))
      && (if SecretNamesClosed(l, body, src, k) then k !in after.secrets && k in again.secrets
          else Lookup(again.secrets, k) == Lookup(after.secrets, k))
      && (if GroupNamesClosed(l, body, src, k) then k !in after.groups && k in again.groups
          else Lookup(again.groups, k) == Lookup(after.groups, k))
  {
    MentionedAt(l, body, src, k);
    NoneClosedAfter(l, body, src);
    MentionedAt(ApplyState(l, body, Stamps(body), true, src), body, src, k);
    UnmentionedAt(l, body, src, k);
  }

  lemma TwiceStamped(l: Live, body: StateBody, src: Source)
    requires AllUpserts(body)
    ensures var after := ApplyState(l, body, Stamps(body), true, src);
      ApplyState(after, body, Stamps(body), true, src) == after <==> forall k :: !NamesClosed(l, body, src, k)
  {
    var after := ApplyState(l, body, Stamps(body), true, src);
    var again := ApplyState(after, body, Stamps(body), true, src);
    if k :| NamesClosed(l, body, src, k) {
      TwiceAt(l, body, src, k);
    } else {
      forall k ensures Read(again, WinKey(k)) == Read(after, WinKey(k))
                       && Read(again, TabKey(k)) == Read(after, TabKey(k))
               ensures Read(again, GrpKey(k)) == Read(after, GrpKey(k))
      {
        assert !NamesClosed(l, body, src, k);
        TwiceAt(l, body, src, k);
      }
      forall k: Key ensures Read(again, k) == Read(after, k) {
        assert k == WinKey(k.id) || k == TabKey(k.id) || k == GrpKey(k.id);
      }
      ReadFold(after, Deltas(body, Stamps(body)), WinKey(""), src);
      SameCells(again, after);
    }
  }

  lemma OwnWindowsOnly(l: Live, body: StateBody, src: Source)
    requires AllUpserts(body) && TabsNamePayloadWindows(body) && GroupsNamePayloadWindows(body)
    ensures forall k :: !NamesClosed(l, body, src, k)
  {
    forall k ensures !NamesClosed(l, body, src, k) {
      Mentions(body, Stamps(body), k);
    }
  }

  /**
   The same payload twice is the same payload once, stamps aside, if and only if no tab (a
   private one only while private windows are captured) and no group is last reported under a
   window that was on record for the reporter and that the payload omits. A payload that names
   only its own windows is always such a one.
   */
  lemma ReconcileTwice(l: Live, body: StateBody, first: seq<int>, second: seq<int>, src: Source)
    requires |first| == |second| == |body.tabs| && AllUpserts(body)
    ensures var after := ApplyState(l, body, first, true, src);
      EraseExpiry(ApplyState(after, body, second, true, src)) == EraseExpiry(after)
      <==> forall k :: !NamesClosed(l, body, src, k)
    ensures TabsNamePayloadWindows(body) && GroupsNamePayloadWindows(body) ==> forall k :: !NamesClosed(l, body, src, k)
  {
    EraseApplyState(l, body, first, true, src);
    EraseApplyState(ApplyState(l, body, first, true, src), body, second, true, src);
    TwiceStamped(EraseExpiry(l), body, src);
    assert Closed(EraseExpiry(l), body, src) == Closed(l, body, src);
    assert forall k :: NamesClosed(EraseExpiry(l), body, src, k) <==> NamesClosed(l, body, src, k);
    if TabsNamePayloadWindows(body) && GroupsNamePayloadWindows(body) { OwnWindowsOnly(l, body, src); }
  }

  /** Where it is not: the row is gone after one reconcile and there after two. */
  lemma OrphanComesBack(l: Live, body: StateBody, first: seq<int>, second: seq<int>, src: Source, k: string)
    requires |first| == |second| == |body.tabs| && AllUpserts(body)
    ensures var after := ApplyState(l, body, first, true, src);
      var again := ApplyState(after, body, second, true, src);
      && (TabNamesClosed(l, body, src, k) ==> k !in after.tabs && k in again.tabs)
      && (SecretNamesClosed(l, body, src, k) ==> k !in after.secrets && k in again.secrets)
      && (GroupNamesClosed(l, body, src, k) ==> k !in after.groups && k in again.groups)
  {
    EraseApplyState(l, body, first, true, src);
    EraseApplyState(ApplyState(l, body, first, true, src), body, second, true, src);
    assert Closed(EraseExpiry(l), body, src) == Closed(l, body, src);
    TwiceAt(EraseExpiry(l), body, src, k);
  }

  /** And it stays: from any state a third reconcile with the payload changes nothing. */
  lemma ThreeTimesIsTwice(l: Live, body: StateBody, first: seq<int>, second: seq<int>, third: seq<int>, src: Source)
    requires |first| == |second| == |third| == |body.tabs| && AllUpserts(body)
    ensures var again := ApplyState(ApplyState(l, body, first, true, src), body, second, true, src);
      EraseExpiry(ApplyState(again, body, third, true, src)) == EraseExpiry(again)
  {
    var after := ApplyState(l, body, first, true, src);
    EraseApplyState(l, body, first, true, src);
    NoneClosedAfter(EraseExpiry(l), body, src);
    assert Closed(after, body, src) == Closed(EraseExpiry(after), body, src) == {};
    ReconcileTwice(after, body, second, third, src);
  }
}
