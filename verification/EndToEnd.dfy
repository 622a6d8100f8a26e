/**
 From the message that last names a tab to the offer that opens it again, in terms of what the
 message said: ingest, snapshot, whatever the store does afterwards, and the offer.
 */
module EndToEnd {
  import opened Options
  import opened Protocol
  import opened LiveTables
  import opened Reconcile
  import opened Store
  import opened Sessions
  import opened StoreRuns
  import opened StoreSafety
  import opened OfferPending
  import opened OfferContent

  predicate Given(t: Tables, body: StateBody, envs: seq<Env>) {
    Sound(t) && |envs| == |body.tabs| && forall e :: e in envs ==> GoodEnv(e)
  }

  predicate LastTabNamed(body: StateBody, i: nat) {
    i < |body.tabs| && forall j :: i < j < |body.tabs| ==> body.tabs[j].tabKey != body.tabs[i].tabKey
  }

  predicate LastWindowNamed(body: StateBody, i: nat) {
    i < |body.windows| && forall j :: i < j < |body.windows| ==> body.windows[j].windowId != body.windows[i].windowId
  }

  predicate LastGroupNamed(body: StateBody, i: nat) {
    i < |body.groups| && forall j :: i < j < |body.groups| ==> body.groups[j].groupKey != body.groups[i].groupKey
  }

  // ----- What a message leaves -----

  /** A private row's time: so many hours from the stamp. */
  function Until(env: Env): int { env.stamp + env.ttlHours * 3_600_000 }

  predicate ShownIn(l: Live, d: TabDelta, expiresAt: int) {
    if d.isPrivate then d.tabKey in l.secrets && SecretShows(l.secrets[d.tabKey], d, expiresAt)
    else d.tabKey in l.tabs && TabShows(l.tabs[d.tabKey], d)
  }

  function AsReceived(body: StateBody, envs: seq<Env>): seq<Delta>
    requires |envs| == |body.tabs|
  {
    Deltas(body, Expiry(envs))
  }

  lemma TabAtEnd(l: Live, ds: seq<Delta>, i: nat, src: Source)
    requires i < |ds| && ds[i].Tab? && forall j :: i < j < |ds| ==> KeyOf(ds[j]) != KeyOf(ds[i])
    ensures var d := ds[i].t; var all := Fold(l, ds, src);
      && (d.op == Upsert && (d.isPrivate ==> src.capturePrivate) ==> ShownIn(all, d, ds[i].expiresAt))
      && (d.op == Remove ==> d.tabKey !in all.tabs && d.tabKey !in all.secrets)
  {
    LastIsShown(l, ds, i, src);
  }

  lemma ReapSpares(l: Live, body: StateBody, expiry: seq<int>, src: Source, d: TabDelta, expiresAt: int)
    requires |expiry| == |body.tabs| && d in body.tabs && WindowReported(body, d.windowId)
    ensures var all, left := Fold(l, Deltas(body, expiry), src), ApplyState(l, body, expiry, true, src);
      && (d.op == Upsert && ShownIn(all, d, expiresAt) ==> ShownIn(left, d, expiresAt))
      && left.tabs.Keys <= all.tabs.Keys && left.secrets.Keys <= all.secrets.Keys
  {
    assert d.op == Upsert ==> TabReported(body, d.tabKey);
    ReapExactly(l, body, expiry, src, d.tabKey);
  }

  /**
   Column by column: after a message the tables show the last delta of each tab. A normal upsert
   is shown in one table and a private one, while they are captured, in the other, there with its
   time; a remove leaves neither. An authoritative message must also report the tab's window.
   */
  lemma MessageShowsTab(t: Tables, body: StateBody, envs: seq<Env>, authoritative: bool, src: Source, i: nat)
    requires Given(t, body, envs) && LastTabNamed(body, i)
    requires authoritative ==> WindowReported(body, body.tabs[i].windowId)
    ensures var d := body.tabs[i]; var after := Session(ApplyMessage(t, body, envs, authoritative, src), LIVE);
      && (d.op == Upsert && (d.isPrivate ==> src.capturePrivate) ==> ShownIn(after, d, Until(envs[i])))
      && (d.op == Remove ==> d.tabKey !in after.tabs && d.tabKey !in after.secrets)
  {
    var d, ds, n, live := body.tabs[i], AsReceived(body, envs), |body.windows| + i, Session(t, LIVE);
    assert ds[n] == Tab(d, Until(envs[i]));
    TabAtEnd(live, ds, n, src);
    SessionMessage(t, body, envs, authoritative, src, LIVE);
    if authoritative { ReapSpares(live, body, Expiry(envs), src, d, Until(envs[i])); }
  }

  lemma MessageShowsWindow(t: Tables, body: StateBody, envs: seq<Env>, authoritative: bool, src: Source, i: nat)
    requires Given(t, body, envs) && LastWindowNamed(body, i)
    ensures var d := body.windows[i]; var w := d.windowId;
      var after := Session(ApplyMessage(t, body, envs, authoritative, src), LIVE);
      && (w in after.windows <==> d.op == Upsert)
      && (d.op == Upsert ==> WindowShows(after.windows[w], d, after.windows[w].browser, src.profile))
      && (d.op == Upsert && !HeldByAnother(Session(t, LIVE), w, src.browser) ==>
            after.windows[w].browser == src.browser)
  {
    var d, ds, live := body.windows[i], AsReceived(body, envs), Session(t, LIVE);
    assert ds[i] == Win(d);
    WindowAtEnd(live, ds, i, src);
    SessionMessage(t, body, envs, authoritative, src, LIVE);
    if authoritative {
      assert d.op == Upsert ==> WindowReported(body, d.windowId);
      ReapExactly(live, body, Expiry(envs), src, d.windowId);
    }
  }

  lemma WindowAtEnd(l: Live, ds: seq<Delta>, i: nat, src: Source)
    requires i < |ds| && ds[i].Win? && forall j :: i < j < |ds| ==> KeyOf(ds[j]) != KeyOf(ds[i])
    ensures var d := ds[i].w; var w := d.windowId; var all := Fold(l, ds, src);
      && (w in all.windows <==> d.op == Upsert)
      && (d.op == Upsert ==> WindowShows(all.windows[w], d, all.windows[w].browser, src.profile))
      && (d.op == Upsert && !HeldByAnother(l, w, src.browser) ==> all.windows[w].browser == src.browser)
  {
    LastIsShown(l, ds, i, src);
    if !HeldByAnother(l, ds[i].w.windowId, src.browser) { StaysOurs(l, ds[..i], src, ds[i].w.windowId); }
  }

  lemma {:induction false} StaysOurs(l: Live, ds: seq<Delta>, src: Source, w: string)
    requires !HeldByAnother(l, w, src.browser)
    ensures !HeldByAnother(Fold(l, ds, src), w, src.browser)
  {
    if ds != [] { StaysOurs(l, ds[..|ds|-1], src, w); }
  }

  lemma MessageShowsGroup(t: Tables, body: StateBody, envs: seq<Env>, authoritative: bool, src: Source, i: nat)
    requires Given(t, body, envs) && LastGroupNamed(body, i)
    requires authoritative ==> WindowReported(body, body.groups[i].windowId)
    ensures var d := body.groups[i]; var g := d.groupKey;
      var after := Session(ApplyMessage(t, body, envs, authoritative, src), LIVE);
      && (g in after.groups <==> d.op == Upsert)
      && (d.op == Upsert ==> GroupShows(after.groups[g], d))
  {
    var d, ds, n := body.groups[i], AsReceived(body, envs), |body.windows| + |body.tabs| + i;
    assert ds[n] == Grp(d);
    GroupAtEnd(Session(t, LIVE), ds, n, src);
    SessionMessage(t, body, envs, authoritative, src, LIVE);
    if authoritative { ReapExactly(Session(t, LIVE), body, Expiry(envs), src, d.groupKey); }
  }

  lemma GroupAtEnd(l: Live, ds: seq<Delta>, i: nat, src: Source)
    requires i < |ds| && ds[i].Grp? && forall j :: i < j < |ds| ==> KeyOf(ds[j]) != KeyOf(ds[i])
    ensures var d := ds[i].g; var all := Fold(l, ds, src);
      && (d.groupKey in all.groups <==> d.op == Upsert)
      && (d.op == Upsert ==> GroupShows(all.groups[d.groupKey], d))
  {
    LastIsShown(l, ds, i, src);
  }

  // ----- Until the snapshot -----

  /** Nothing that names the tab or reconciles. */
  predicate Quiet(e: Event, k: string) {
    e.Message? ==> !e.authoritative && forall d :: d in e.body.tabs ==> d.tabKey != k
  }

  lemma QuietFold(l: Live, ds: seq<Delta>, src: Source, k: string)
    requires forall d :: d in ds ==> KeyOf(d) != TabKey(k)
    ensures Read(Fold(l, ds, src), TabKey(k)) == Read(l, TabKey(k))
  {
    if ds != [] {
      var n := |ds| - 1;
      assert ds[n] in ds;
      QuietFold(l, ds[..n], src, k);
      ReadApply(Fold(l, ds[..n], src), ds[n], TabKey(k), src);
    }
  }

  /** A quiet event leaves a tab as it was, or drops its private row once its time is up. */
  lemma QuietStep(p: Plain, e: Event, k: string)
    requires Whole(p) && Possible(p.snapshots, p.runs, e) && Quiet(e, k)
    ensures var l := p.sessions[LIVE]; var q := PlainNext(p, e);
      && Whole(q) && Lookup(q.sessions[LIVE].tabs, k) == Lookup(l.tabs, k)
      && (k in l.secrets && Survives([e], l.secrets[k]) ==>
            k in q.sessions[LIVE].secrets && q.sessions[LIVE].secrets[k] == l.secrets[k])
  {
    PlainNextWhole(p, e);
    assert e in [e];
    if e.Message? {
      var ds := Deltas(e.body, Expiry(e.envs));
      forall d | d in ds ensures KeyOf(d) != TabKey(k) {
      }
      QuietFold(p.sessions[LIVE], ds, e.src, k);
      var before, after := Read(p.sessions[LIVE], TabKey(k)), Read(Fold(p.sessions[LIVE], ds, e.src), TabKey(k));
      assert before.tab == after.tab && before.secret == after.secret;
    }
  }

  lemma {:induction false} QuietRun(p: Plain, es: seq<Event>, k: string)
    requires Whole(p) && PlainRunnable(p, es) && forall e :: e in es ==> Quiet(e, k)
    ensures var l := p.sessions[LIVE]; var m := PlainRun(p, es).sessions[LIVE];
      && Lookup(m.tabs, k) == Lookup(l.tabs, k)
      && (k in l.secrets && Survives(es, l.secrets[k]) ==> k in m.secrets && m.secrets[k] == l.secrets[k])
    decreases es
  {
    if es != [] {
      assert es[0] in es;
      QuietStep(p, es[0], k);
      QuietRun(PlainNext(p, es[0]), es[1..], k);
    }
  }

  /** Nothing purges everything, and no sweep comes after this time. */
  predicate Unspoiled(es: seq<Event>, expiresAt: int) {
    forall e :: e in es ==> !e.Purged? && !(e.Swept? && expiresAt < e.now)
  }

  lemma QuietTables(t: Tables, es: seq<Event>, d: TabDelta, expiresAt: int)
    requires Sound(t) && Runnable(t, es) && forall e :: e in es ==> Quiet(e, d.tabKey)
    requires ShownIn(Session(t, LIVE), d, expiresAt) && (d.isPrivate ==> Unspoiled(es, expiresAt))
    ensures Sound(Run(t, es)) && ShownIn(Session(Run(t, es), LIVE), d, expiresAt)
  {
    AbstractWhole(t);
    RunRefines(t, es);
    QuietRun(Abstract(t), es, d.tabKey);
    AbstractWhole(Run(t, es));
    QuietShows(Session(t, LIVE), Session(Run(t, es), LIVE), es, d, expiresAt);
  }

  lemma QuietShows(l: Live, m: Live, es: seq<Event>, d: TabDelta, expiresAt: int)
    requires ShownIn(l, d, expiresAt) && (d.isPrivate ==> Unspoiled(es, expiresAt))
    requires Lookup(m.tabs, d.tabKey) == Lookup(l.tabs, d.tabKey)
    requires d.tabKey in l.secrets && Survives(es, l.secrets[d.tabKey]) ==>
      d.tabKey in m.secrets && m.secrets[d.tabKey] == l.secrets[d.tabKey]
    ensures ShownIn(m, d, expiresAt)
  {
  }

  lemma AgedShows(l: Live, es: seq<Event>, d: TabDelta, expiresAt: int)
    requires ShownIn(l, d, expiresAt) && (d.isPrivate ==> Unspoiled(es, expiresAt))
    ensures ShownIn(Aged(l, es), d, expiresAt)
  {
    if d.isPrivate { assert Survives(es, l.secrets[d.tabKey]); }
  }

  /**
   How a delta can come to be offered: a message to tables in any state, quiet events, a snapshot,
   and then anything that does not delete the snapshot.
   */
  datatype Story = Story(
    body: StateBody, envs: seq<Env>, authoritative: bool, src: Source, quiet: seq<Event>, kind: Kind, taken: int,
    later: seq<Event>)

  ghost predicate Happens(t: Tables, s: Story, i: nat) {
    Reported(t, s, i) && Saved(WhenCopied(t, s), s.kind, s.taken, s.later)
  }

  ghost predicate Reported(t: Tables, s: Story, i: nat) {
    && Given(t, s.body, s.envs) && LastTabNamed(s.body, i) && s.body.tabs[i].op == Upsert
    && (s.authoritative ==> WindowReported(s.body, s.body.tabs[i].windowId))
    && (forall e :: e in s.quiet ==> Quiet(e, s.body.tabs[i].tabKey))
    && Runnable(ApplyMessage(t, s.body, s.envs, s.authoritative, s.src), s.quiet)
  }

  /** The tables when the snapshot is taken. */
  ghost function WhenCopied(t: Tables, s: Story): Tables
    requires Given(t, s.body, s.envs) && Runnable(ApplyMessage(t, s.body, s.envs, s.authoritative, s.src), s.quiet)
  {
    Run(ApplyMessage(t, s.body, s.envs, s.authoritative, s.src), s.quiet)
  }

  ghost predicate Saved(u: Tables, kind: Kind, taken: int, later: seq<Event>) {
    var (t', id) := CreateFromLive(u, kind, taken);
    Runnable(t', later) && id.Some? && forall e :: e in later ==> Spares(e, id.value)
  }

  /** What the snapshot reads as in the end. */
  ghost function Snapshot(u: Tables, kind: Kind, taken: int, later: seq<Event>): Live
    requires Saved(u, kind, taken, later)
  {
    var (t', id) := CreateFromLive(u, kind, taken);
    Session(Run(t', later), id.value)
  }

  ghost function Kept(t: Tables, s: Story, i: nat): Live
    requires Happens(t, s, i)
  {
    Snapshot(WhenCopied(t, s), s.kind, s.taken, s.later)
  }

  predicate Lasts(s: Story, i: nat)
    requires i < |s.body.tabs| && |s.envs| == |s.body.tabs|
  {
    s.body.tabs[i].isPrivate ==>
      s.src.capturePrivate && Unspoiled(s.quiet, Until(s.envs[i])) && Unspoiled(s.later, Until(s.envs[i]))
  }

  lemma MessageSound(t: Tables, body: StateBody, envs: seq<Env>, authoritative: bool, src: Source)
    requires Given(t, body, envs)
    ensures Sound(ApplyMessage(t, body, envs, authoritative, src))
  {
    SessionMessage(t, body, envs, authoritative, src, LIVE);
  }

  lemma LiveWhenCopied(t: Tables, s: Story, i: nat)
    requires Reported(t, s, i) && Lasts(s, i)
    ensures Sound(WhenCopied(t, s)) && ShownIn(Session(WhenCopied(t, s), LIVE), s.body.tabs[i], Until(s.envs[i]))
  {
    MessageShowsTab(t, s.body, s.envs, s.authoritative, s.src, i);
    MessageSound(t, s.body, s.envs, s.authoritative, s.src);
    QuietTables(ApplyMessage(t, s.body, s.envs, s.authoritative, s.src), s.quiet, s.body.tabs[i], Until(s.envs[i]));
  }

  /** A tab last reported is in the snapshot, and stays in it, as it was reported. */
  lemma TabIsKept(t: Tables, s: Story, i: nat)
    requires Happens(t, s, i) && Lasts(s, i)
    ensures ShownIn(Kept(t, s, i), s.body.tabs[i], Until(s.envs[i]))
  {
    LiveWhenCopied(t, s, i);
    SnapshotShows(WhenCopied(t, s), s.kind, s.taken, s.later, s.body.tabs[i], Until(s.envs[i]));
  }

  lemma SnapshotShows(u: Tables, kind: Kind, taken: int, later: seq<Event>, d: TabDelta, expiresAt: int)
    requires Sound(u) && Saved(u, kind, taken, later)
    requires ShownIn(Session(u, LIVE), d, expiresAt) && (d.isPrivate ==> Unspoiled(later, expiresAt))
    ensures ShownIn(Snapshot(u, kind, taken, later), d, expiresAt)
  {
    SnapshotIsLiveAtCreation(u, kind, taken, later);
    AgedShows(Session(u, LIVE), later, d, expiresAt);
  }

  predicate HasTab(win: RestoreWindow, d: TabDelta, tab: RestoreTab) {
    && tab in win.tabs && win.windowId == d.windowId && tab.tabKey == d.tabKey
    && tab.url == (if d.url.Some? then d.url.value else "")
    && tab.index == (if d.index.Some? then d.index.value else 0)
    && tab.title == d.title && tab.pinned == d.pinned && tab.active == d.active
  }

  /**
   A restorable tab is offered as its last delta said, if its window is on record for the browser
   and profile asked for and the review, if there was one, leaves it in.
   */
  lemma TabIsOffered(t: Tables, s: Story, i: nat, offer: Body, capturePrivate: bool, now: int, browser: string,
                     profile: string, sel: Option<Selection>)
    requires Happens(t, s, i) && Carries(offer, Kept(t, s, i), capturePrivate, now, browser, profile, sel)
    requires !s.body.tabs[i].isPrivate && s.body.tabs[i].restorable
    requires Held(Kept(t, s, i), s.body.tabs[i].windowId, browser, profile, false)
    requires var d := s.body.tabs[i];
      sel.Some? ==> d.windowId in sel.value.windows && (sel.value.tabs != {} ==> d.tabKey in sel.value.tabs)
    ensures exists win, tab ::
      win in offer.normal && HasTab(win, s.body.tabs[i], tab) && tab.groupKey == s.body.tabs[i].groupKey
  {
    TabIsKept(t, s, i);
    OfferedAsShown(offer, Kept(t, s, i), capturePrivate, now, browser, profile, sel, s.body.tabs[i]);
  }

  lemma OfferedAsShown(offer: Body, l: Live, capturePrivate: bool, now: int, browser: string, profile: string,
                       sel: Option<Selection>, d: TabDelta)
    requires Carries(offer, l, capturePrivate, now, browser, profile, sel)
    requires !d.isPrivate && ShownIn(l, d, 0) && d.restorable && Held(l, d.windowId, browser, profile, false)
    requires sel.Some? ==> d.windowId in sel.value.windows && (sel.value.tabs != {} ==> d.tabKey in sel.value.tabs)
    ensures exists win, tab :: win in offer.normal && HasTab(win, d, tab) && tab.groupKey == d.groupKey
  {
    assert Chosen(l, browser, profile, sel, d.tabKey);
    var tab :| InWindow(offer.normal, d.windowId, tab) && TabOffered(tab, d.tabKey, l.tabs[d.tabKey]);
    var win :| win in offer.normal && win.windowId == d.windowId && tab in win.tabs;
    assert HasTab(win, d, tab);
  }

  /**
   So is a private tab, if capture was on when it was reported, its time is not up when it is
   offered, nothing took it earlier, and the review asks for private windows and leaves it in.
   */
  lemma SecretIsOffered(t: Tables, s: Story, i: nat, offer: Body, capturePrivate: bool, now: int, browser: string,
                        profile: string, sel: Option<Selection>)
    requires Happens(t, s, i) && Carries(offer, Kept(t, s, i), capturePrivate, now, browser, profile, sel)
    requires s.body.tabs[i].isPrivate && Lasts(s, i) && Until(s.envs[i]) >= now
    requires Held(Kept(t, s, i), s.body.tabs[i].windowId, browser, profile, true)
    requires SecretsWanted(Kept(t, s, i), capturePrivate, now, browser, profile, sel)
    requires sel.value.privateTabs != {} ==> s.body.tabs[i].tabKey in sel.value.privateTabs
    ensures exists win, tab :: win in offer.secret && HasTab(win, s.body.tabs[i], tab)
  {
    TabIsKept(t, s, i);
    SecretAsShown(offer, Kept(t, s, i), capturePrivate, now, browser, profile, sel, s.body.tabs[i], Until(s.envs[i]));
  }

  lemma SecretAsShown(offer: Body, l: Live, capturePrivate: bool, now: int, browser: string, profile: string,
                      sel: Option<Selection>, d: TabDelta, expiresAt: int)
    requires Carries(offer, l, capturePrivate, now, browser, profile, sel)
    requires SecretsWanted(l, capturePrivate, now, browser, profile, sel)
    requires d.isPrivate && ShownIn(l, d, expiresAt) && expiresAt >= now && Held(l, d.windowId, browser, profile, true)
    requires sel.value.privateTabs != {} ==> d.tabKey in sel.value.privateTabs
    ensures exists win, tab :: win in offer.secret && HasTab(win, d, tab)
  {
    assert ChosenSecret(l, now, browser, profile, sel.value.privateTabs, d.tabKey);
    var tab :| InWindow(offer.secret, d.windowId, tab) && SecretOffered(tab, d.tabKey, l.secrets[d.tabKey]);
    var win :| win in offer.secret && win.windowId == d.windowId && tab in win.tabs;
    assert HasTab(win, d, tab);
  }
}
