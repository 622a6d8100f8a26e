/**
 The rows of one session and what each delta does to them: the meaning of `apply_state`,
 `ingest_tab` and the reap (agent/crates/sr-agent/src/server.rs, ingest.rs), with private
 tabs already opened. Database.dfy proves that the encrypted tables implement this.
 */
module LiveTables {
  import opened Options
  import opened Protocol

  datatype WindowRow = WindowRow(
    browser: string, profile: string, isPrivate: bool, state: Option<string>,
    x: Option<int>, y: Option<int>, w: Option<int>, h: Option<int>, focused: bool)

  datatype TabRow = TabRow(
    windowId: string, groupKey: Option<string>, index: int, url: string, title: Option<string>,
    faviconHash: Option<string>, pinned: bool, active: bool, muted: bool, restorable: bool,
    lastAccessed: Option<int>)

  datatype PrivatePayload = PrivatePayload(url: string, title: Option<string>, pinned: bool, active: bool, muted: bool)

  /** A private row as it reads; `payload` is None when it does not open. */
  datatype PrivateTab = PrivateTab(windowId: string, index: int, payload: Option<PrivatePayload>, expiresAt: int)

  datatype GroupRow = GroupRow(windowId: string, title: Option<string>, color: Option<string>, collapsed: bool)

  type AppRow = string

  datatype Live = Live(
    windows: map<string, WindowRow>, tabs: map<string, TabRow>, secrets: map<string, PrivateTab>,
    groups: map<string, GroupRow>, apps: map<string, AppRow>)

  const NOTHING := Live(map[], map[], map[], map[], map[])

  /** Who is reporting, and whether private windows are captured. */
  datatype Source = Source(browser: string, profile: string, capturePrivate: bool)

  // ----- Single deltas -----

  /** One change, and the expiry the agent stamps on it should it store a private tab. */
  datatype Delta = Win(w: WindowDelta) | Tab(t: TabDelta, expiresAt: int) | Grp(g: GroupDelta)

  function StringOr(s: Option<string>): string { if s.Some? then s.value else "" }
  function IntOr(n: Option<int>): int { if n.Some? then n.value else 0 }

  function NormalTabOf(d: TabDelta): Option<TabRow> {
    if d.isPrivate then None
    else Some(TabRow(d.windowId, d.groupKey, IntOr(d.index), StringOr(d.url), d.title, d.faviconHash,
                     d.pinned, d.active, d.muted, d.restorable, d.lastAccessed))
  }

  function PayloadOf(d: TabDelta): PrivatePayload {
    PrivatePayload(StringOr(d.url), d.title, d.pinned, d.active, d.muted)
  }

  function PrivateTabOf(d: TabDelta, expiresAt: int): PrivateTab {
    PrivateTab(d.windowId, IntOr(d.index), Some(PayloadOf(d)), expiresAt)
  }

  /** On conflict every column is rewritten except `browser`. */
  function WindowRowOf(d: WindowDelta, src: Source, old_: Option<WindowRow>): WindowRow {
    WindowRow(if old_.Some? then old_.value.browser else src.browser, src.profile, d.isPrivate, d.state,
              d.x, d.y, d.w, d.h, d.focused)
  }

  function Lookup<V>(m: map<string, V>, k: string): Option<V> {
    if k in m then Some(m[k]) else None
  }

  function ApplyWindow(l: Live, d: WindowDelta, src: Source): Live {
    match d.op
    case Remove => l.(windows := l.windows - {d.windowId})
    case Upsert => l.(windows := l.windows[d.windowId := WindowRowOf(d, src, Lookup(l.windows, d.windowId))])
  }

  function ApplyTab(l: Live, d: TabDelta, expiresAt: int, src: Source): Live {
    if d.op == Remove then l.(tabs := l.tabs - {d.tabKey}, secrets := l.secrets - {d.tabKey})
    else if d.isPrivate then
      if !src.capturePrivate then l
      else l.(secrets := l.secrets[d.tabKey := PrivateTabOf(d, expiresAt)])
    else match NormalTabOf(d)
      case Some(row) => l.(tabs := l.tabs[d.tabKey := row])
      case None => l
  }

  function ApplyGroup(l: Live, d: GroupDelta): Live {
    match d.op
    case Remove => l.(groups := l.groups - {d.groupKey})
    case Upsert => l.(groups := l.groups[d.groupKey := GroupRow(d.windowId, d.title, d.color, d.collapsed)])
  }

  function Apply(l: Live, d: Delta, src: Source): Live {
    match d
    case Win(w) => ApplyWindow(l, w, src)
    case Tab(t, expiresAt) => ApplyTab(l, t, expiresAt, src)
    case Grp(g) => ApplyGroup(l, g)
  }

  /** Applying deltas one by one, in order. */
  function Fold(l: Live, ds: seq<Delta>, src: Source): Live {
    if ds == [] then l else Apply(Fold(l, ds[..|ds|-1], src), ds[|ds|-1], src)
  }

  // ----- Messages -----

  /** A message applies its windows, then its tabs, then its groups. */
  function Deltas(body: StateBody, expiry: seq<int>): (ds: seq<Delta>)
    requires |expiry| == |body.tabs|
    ensures |ds| == |body.windows| + |body.tabs| + |body.groups|
  {
    seq(|body.windows|, i requires 0 <= i < |body.windows| => Win(body.windows[i]))
    + seq(|body.tabs|, i requires 0 <= i < |body.tabs| => Tab(body.tabs[i], expiry[i]))
    + seq(|body.groups|, i requires 0 <= i < |body.groups| => Grp(body.groups[i]))
  }

  /** The windows a browser and profile have on record. */
  function Owned(l: Live, browser: string, profile: string): set<string> {
    set w | w in l.windows && l.windows[w].browser == browser && l.windows[w].profile == profile
  }

  function LiveWindows(body: StateBody): set<string> {
    set w | w in body.windows && w.op == Upsert :: w.windowId
  }

  function LiveTabs(body: StateBody): set<string> {
    set t | t in body.tabs && t.op == Upsert :: t.tabKey
  }

  /** A row under an owned window survives if the window and the row are still reported. */
  predicate KeepsTab(owned: set<string>, body: StateBody, windowId: string, tabKey: string) {
    windowId in owned ==> windowId in LiveWindows(body) && tabKey in LiveTabs(body)
  }

  predicate KeepsGroup(owned: set<string>, body: StateBody, windowId: string) {
    windowId in owned ==> windowId in LiveWindows(body)
  }

  function ReapWindows(m: map<string, WindowRow>, body: StateBody, owned: set<string>): map<string, WindowRow> {
    map w | w in m && (w in owned ==> w in LiveWindows(body)) :: m[w]
  }

  function ReapTabs(m: map<string, TabRow>, body: StateBody, owned: set<string>): map<string, TabRow> {
    map k | k in m && KeepsTab(owned, body, m[k].windowId, k) :: m[k]
  }

  function ReapSecrets(m: map<string, PrivateTab>, body: StateBody, owned: set<string>): map<string, PrivateTab> {
    map k | k in m && KeepsTab(owned, body, m[k].windowId, k) :: m[k]
  }

  function ReapGroups(m: map<string, GroupRow>, body: StateBody, owned: set<string>): map<string, GroupRow> {
    map g | g in m && KeepsGroup(owned, body, m[g].windowId) :: m[g]
  }

  function Reap(l: Live, body: StateBody, owned: set<string>): Live {
    Live(ReapWindows(l.windows, body, owned), ReapTabs(l.tabs, body, owned), ReapSecrets(l.secrets, body, owned),
         ReapGroups(l.groups, body, owned), l.apps)
  }

  /** `apply_state`: fold the deltas, then, for a `full_state`, reap what was not mentioned. */
  function ApplyState(l: Live, body: StateBody, expiry: seq<int>, authoritative: bool, src: Source): Live
    requires |expiry| == |body.tabs|
  {
    var folded := Fold(l, Deltas(body, expiry), src);
    if authoritative then Reap(folded, body, Owned(folded, src.browser, src.profile)) else folded
  }

  // ----- One key at a time -----

  datatype Key = WinKey(id: string) | TabKey(id: string) | GrpKey(id: string)

  /** Everything stored under one key. */
  datatype Cell =
    | WinCell(window: Option<WindowRow>)
    | TabCell(tab: Option<TabRow>, secret: Option<PrivateTab>)
    | GrpCell(group: Option<GroupRow>)

  function KeyOf(d: Delta): Key {
    match d
    case Win(w) => WinKey(w.windowId)
    case Tab(t, _) => TabKey(t.tabKey)
    case Grp(g) => GrpKey(g.groupKey)
  }

  function Read(l: Live, k: Key): Cell {
    match k
    case WinKey(id) => WinCell(Lookup(l.windows, id))
    case TabKey(id) => TabCell(Lookup(l.tabs, id), Lookup(l.secrets, id))
    case GrpKey(id) => GrpCell(Lookup(l.groups, id))
  }

  /** What a delta does to the cell under its own key. */
  function Step(c: Cell, d: Delta, src: Source): Cell {
    match d
    case Win(w) => WinCell(if w.op == Remove then None
                           else Some(WindowRowOf(w, src, if c.WinCell? then c.window else None)))
    case Tab(t, expiresAt) =>
      if t.op == Remove then TabCell(None, None)
      else if t.isPrivate then
        if src.capturePrivate then TabCell(if c.TabCell? then c.tab else None, Some(PrivateTabOf(t, expiresAt))) else c
      else TabCell(NormalTabOf(t), if c.TabCell? then c.secret else None)
    case Grp(g) => GrpCell(if g.op == Remove then None else Some(GroupRow(g.windowId, g.title, g.color, g.collapsed)))
  }

  function FoldCell(c: Cell, ds: seq<Delta>, k: Key, src: Source): Cell {
    if ds == [] then c
    else
      var before := FoldCell(c, ds[..|ds|-1], k, src);
      if KeyOf(ds[|ds|-1]) == k then Step(before, ds[|ds|-1], src) else before
  }

  lemma ReadApply(l: Live, d: Delta, k: Key, src: Source)
    ensures Read(Apply(l, d, src), k) == if KeyOf(d) == k then Step(Read(l, k), d, src) else Read(l, k)
    ensures Apply(l, d, src).apps == l.apps
  {
    match d
    case Win(w) => ReadApplyWindow(l, w, k, src);
    case Tab(t, expiresAt) => ReadApplyTab(l, t, expiresAt, k, src);
    case Grp(g) => ReadApplyGroup(l, g, k);
  }

  lemma ReadApplyWindow(l: Live, d: WindowDelta, k: Key, src: Source)
    ensures Read(ApplyWindow(l, d, src), k)
            == if WinKey(d.windowId) == k then Step(Read(l, k), Win(d), src) else Read(l, k)
  {
  }

  lemma ReadApplyTab(l: Live, d: TabDelta, expiresAt: int, k: Key, src: Source)
    ensures Read(ApplyTab(l, d, expiresAt, src), k)
            == if TabKey(d.tabKey) == k then Step(Read(l, k), Tab(d, expiresAt), src) else Read(l, k)
  {
  }

  lemma ReadApplyGroup(l: Live, d: GroupDelta, k: Key)
    ensures Read(ApplyGroup(l, d), k)
            == if GrpKey(d.groupKey) == k then Step(Read(l, k), Grp(d), Source("", "", false)) else Read(l, k)
  {
  }

  lemma {:induction false} ReadFold(l: Live, ds: seq<Delta>, k: Key, src: Source)
    ensures Read(Fold(l, ds, src), k) == FoldCell(Read(l, k), ds, k, src)
    ensures Fold(l, ds, src).apps == l.apps
  {
    if ds != [] {
      ReadFold(l, ds[..|ds|-1], k, src);
      ReadApply(Fold(l, ds[..|ds|-1], src), ds[|ds|-1], k, src);
    }
  }

  // ----- Column by column -----

  predicate TabShows(row: TabRow, d: TabDelta) {
    && row.windowId == d.windowId && row.groupKey == d.groupKey
    && row.index == (if d.index.Some? then d.index.value else 0)
    && row.url == (if d.url.Some? then d.url.value else "")
    && row.title == d.title && row.faviconHash == d.faviconHash
    && row.pinned == d.pinned && row.active == d.active && row.muted == d.muted
    && row.restorable == d.restorable && row.lastAccessed == d.lastAccessed
  }

  predicate SecretShows(row: PrivateTab, d: TabDelta, expiresAt: int) {
    && row.windowId == d.windowId && row.index == (if d.index.Some? then d.index.value else 0)
    && row.expiresAt == expiresAt && row.payload.Some?
    && var p := row.payload.value;
    && p.url == (if d.url.Some? then d.url.value else "")
    && p.title == d.title && p.pinned == d.pinned && p.active == d.active && p.muted == d.muted
  }

  predicate WindowShows(row: WindowRow, d: WindowDelta, browser: string, profile: string) {
    && row.browser == browser && row.profile == profile && row.isPrivate == d.isPrivate
    && row.state == d.state && row.focused == d.focused
    && row.x == d.x && row.y == d.y && row.w == d.w && row.h == d.h
  }

  predicate GroupShows(row: GroupRow, d: GroupDelta) {
    && row.windowId == d.windowId && row.title == d.title && row.color == d.color && row.collapsed == d.collapsed
  }

  /**
   The cell after a delta for its key: a remove empties it; an upsert shows the delta, a private
   tab only while private windows are captured, and leaves what the other tab table holds and the
   browser a window was first reported by.
   */
  predicate Shown(c: Cell, d: Delta, before: Cell, src: Source) {
    match d
    case Win(w) =>
      && c.WinCell? && (c.window.Some? <==> w.op == Upsert)
      && (w.op == Upsert ==>
            var known := before.WinCell? && before.window.Some?;
            WindowShows(c.window.value, w, if known then before.window.value.browser else src.browser, src.profile))
    case Tab(t, expiresAt) =>
      && c.TabCell?
      && (t.op == Remove ==> c.tab.None? && c.secret.None?)
      && (t.op == Upsert && !t.isPrivate ==>
            c.tab.Some? && TabShows(c.tab.value, t) && c.secret == if before.TabCell? then before.secret else None)
      && (t.op == Upsert && t.isPrivate && src.capturePrivate ==>
            && c.secret.Some? && SecretShows(c.secret.value, t, expiresAt)
            && c.tab == if before.TabCell? then before.tab else None)
      && (t.op == Upsert && t.isPrivate && !src.capturePrivate ==> c == before)
    case Grp(g) =>
      && c.GrpCell? && (c.group.Some? <==> g.op == Upsert)
      && (g.op == Upsert ==> GroupShows(c.group.value, g))
  }

  lemma StepShows(c: Cell, d: Delta, src: Source)
    requires d.Tab? ==> c.TabCell?
    ensures Shown(Step(c, d, src), d, c, src)
  {
  }

  /** Under every key the tables show the last delta that names it, column by column. */
  lemma {:induction false} LastIsShown(l: Live, ds: seq<Delta>, i: nat, src: Source)
    requires i < |ds| && forall j :: i < j < |ds| ==> KeyOf(ds[j]) != KeyOf(ds[i])
    ensures var k := KeyOf(ds[i]);
      Shown(Read(Fold(l, ds, src), k), ds[i], Read(Fold(l, ds[..i], src), k), src)
  {
    var n, k := |ds| - 1, KeyOf(ds[i]);
    ReadApply(Fold(l, ds[..n], src), ds[n], k, src);
    if i == n {
      StepShows(Read(Fold(l, ds[..n], src), k), ds[n], src);
    } else {
      assert ds[..n][..i] == ds[..i];
      LastIsShown(l, ds[..n], i, src);
    }
  }

  /** The cells determine the session. */
  lemma SameCells(a: Live, b: Live)
    requires a.apps == b.apps && forall k :: Read(a, k) == Read(b, k)
    ensures a == b
  {
    forall id ensures Lookup(a.windows, id) == Lookup(b.windows, id) {
      assert Read(a, WinKey(id)) == Read(b, WinKey(id));
    }
    forall id ensures Lookup(a.tabs, id) == Lookup(b.tabs, id) && Lookup(a.secrets, id) == Lookup(b.secrets, id) {
      assert Read(a, TabKey(id)) == Read(b, TabKey(id));
    }
    forall id ensures Lookup(a.groups, id) == Lookup(b.groups, id) {
      assert Read(a, GrpKey(id)) == Read(b, GrpKey(id));
    }
    SameMap(a.windows, b.windows);
    SameMap(a.tabs, b.tabs);
    SameMap(a.secrets, b.secrets);
    SameMap(a.groups, b.groups);
  }

  lemma SameMap<V>(a: map<string, V>, b: map<string, V>)
    requires forall k :: Lookup(a, k) == Lookup(b, k)
    ensures a == b
  {
    forall k ensures k in a <==> k in b {
      assert Lookup(a, k) == Lookup(b, k);
    }
    forall k | k in a ensures a[k] == b[k] {
      assert Lookup(a, k) == Lookup(b, k);
    }
  }
}
