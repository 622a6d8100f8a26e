/**
 What a restore offer contains (`effective_profile`, the second half of `maybe_offer_restore`,
 `build_payload` and `build_private_payload`; agent/crates/sr-agent/src/server.rs,
 restore/mod.rs), read from one snapshot in plain text.
 */
module OfferContent {
  import opened Options
  import opened LiveTables
  import opened Store
  import opened Database
  import opened OfferPending

  datatype RestoreTab = RestoreTab(
    tabKey: string, url: string, title: Option<string>, index: int, pinned: bool, active: bool,
    groupKey: Option<string>)

  datatype RestoreWindow = RestoreWindow(
    windowId: string, isPrivate: bool, state: Option<string>,
    x: Option<int>, y: Option<int>, w: Option<int>, h: Option<int>,
    tabs: seq<RestoreTab>)

  // ----- Profiles -----

  function StoredProfiles(l: Live, browser: string): set<string> {
    set w | w in l.windows && l.windows[w].browser == browser :: l.windows[w].profile
  }

  /** Some window of the browser was stored under the profile. */
  ghost predicate StoredUnder(l: Live, browser: string, profile: string) {
    exists w :: w in l.windows && l.windows[w].browser == browser && l.windows[w].profile == profile
  }

  /** An exact match, or else the only profile stored. */
  ghost predicate Resolves(l: Live, browser: string, connecting: string, profile: string) {
    && StoredUnder(l, browser, profile)
    && (profile == connecting
        || (!StoredUnder(l, browser, connecting)
            && forall other :: StoredUnder(l, browser, other) ==> other == profile))
  }

  lemma OnlyOne(s: set<string>, x: string)
    requires x in s
    ensures |s| == 1 ==> s == {x}
  {
    if |s| == 1 {
      assert |s - {x}| == 0;
      assert s - {x} == {};
    }
  }

  lemma StoredIs(l: Live, browser: string, profile: string)
    ensures profile in StoredProfiles(l, browser) <==> StoredUnder(l, browser, profile)
  {
  }

  lemma EffectiveIs(l: Live, browser: string, connecting: string, profile: Option<string>)
    requires profile.Some? <==> connecting in StoredProfiles(l, browser) || |StoredProfiles(l, browser)| == 1
    requires profile.Some? ==> profile.value in StoredProfiles(l, browser)
    requires connecting in StoredProfiles(l, browser) ==> profile == Some(connecting)
    ensures forall p :: profile == Some(p) <==> Resolves(l, browser, connecting, p)
  {
    var stored := StoredProfiles(l, browser);
    forall p ensures p in stored <==> StoredUnder(l, browser, p) { StoredIs(l, browser, p); }
    forall p ensures profile == Some(p) <==> Resolves(l, browser, connecting, p) {
      if profile.Some? { OnlyOne(stored, profile.value); }
      if Resolves(l, browser, connecting, p) && p != connecting { assert stored == {p}; }
    }
  }

  /** An exact match, or the only one stored; never a guess among several. */
  method EffectiveProfile(l: Live, browser: string, connecting: string) returns (profile: Option<string>)
    ensures profile.Some? <==> connecting in StoredProfiles(l, browser) || |StoredProfiles(l, browser)| == 1
    ensures profile.Some? ==> profile.value in StoredProfiles(l, browser)
    ensures connecting in StoredProfiles(l, browser) ==> profile == Some(connecting)
    ensures forall p :: profile == Some(p) <==> Resolves(l, browser, connecting, p)
  {
    var profiles := StoredProfiles(l, browser);
    profile := None;
    if connecting in profiles {
      profile := Some(connecting);
    } else if |profiles| == 1 {
      var only :| only in profiles;
      profile := Some(only);
    }
    EffectiveIs(l, browser, connecting, profile);
  }

  // ----- What is offered, row by row -----

  /** On record for this browser and profile. */
  predicate Held(l: Live, w: string, browser: string, profile: string, isPrivate: bool) {
    && w in l.windows && l.windows[w].browser == browser && l.windows[w].profile == profile
    && l.windows[w].isPrivate == isPrivate
  }

  /** A stored tab the offer is to carry. */
  predicate Chosen(l: Live, browser: string, profile: string, sel: Option<Selection>, k: string) {
    && k in l.tabs && l.tabs[k].restorable && Held(l, l.tabs[k].windowId, browser, profile, false)
    && (sel.Some? ==> l.tabs[k].windowId in sel.value.windows && (sel.value.tabs != {} ==> k in sel.value.tabs))
  }

  /** A stored private tab of this browser and profile that is not past its time. */
  predicate CurrentSecret(l: Live, now: int, browser: string, profile: string, k: string) {
    k in l.secrets && l.secrets[k].expiresAt >= now && Held(l, l.secrets[k].windowId, browser, profile, true)
  }

  ghost predicate AllOpen(l: Live, now: int, browser: string, profile: string) {
    forall k :: CurrentSecret(l, now, browser, profile, k) ==> l.secrets[k].payload.Some?
  }

  /** One the offer is to carry; naming none means all. */
  predicate ChosenSecret(l: Live, now: int, browser: string, profile: string, named: set<string>, k: string) {
    CurrentSecret(l, now, browser, profile, k) && (named != {} ==> k in named)
  }

  predicate TabOffered(t: RestoreTab, k: string, row: TabRow) {
    && t.tabKey == k && t.url == row.url && t.title == row.title && t.index == row.index
    && t.pinned == row.pinned && t.active == row.active && t.groupKey == row.groupKey
  }

  predicate SecretOffered(t: RestoreTab, k: string, row: PrivateTab) {
    && t.tabKey == k && row.payload.Some? && t.index == row.index && t.groupKey.None?
    && var p := row.payload.value;
    && t.url == p.url && t.title == p.title && t.pinned == p.pinned && t.active == p.active
  }

  predicate WindowOffered(win: RestoreWindow, row: WindowRow) {
    && win.isPrivate == row.isPrivate && win.state == row.state
    && win.x == row.x && win.y == row.y && win.w == row.w && win.h == row.h
  }

  ghost predicate InWindow(out: seq<RestoreWindow>, windowId: string, t: RestoreTab) {
    exists win :: win in out && win.windowId == windowId && t in win.tabs
  }

  /** Windows once each, none empty, as stored; tabs in each once, in order. */
  ghost predicate Tidy(out: seq<RestoreWindow>, l: Live) {
    && (forall i, j :: 0 <= i < j < |out| ==> out[i].windowId != out[j].windowId)
    && (forall win :: win in out ==>
          && win.windowId in l.windows && WindowOffered(win, l.windows[win.windowId]) && win.tabs != []
          && forall i, j :: 0 <= i < j < |win.tabs| ==>
               win.tabs[i] != win.tabs[j] && win.tabs[i].index <= win.tabs[j].index)
  }

  /** Every chosen tab and no other, in its window and as stored. */
  ghost predicate CarriesTabs(out: seq<RestoreWindow>, l: Live, browser: string, profile: string,
                              sel: Option<Selection>) {
    && Tidy(out, l)
    && (forall k :: Chosen(l, browser, profile, sel, k) ==>
          exists t :: InWindow(out, l.tabs[k].windowId, t) && TabOffered(t, k, l.tabs[k]))
    && (forall win, t :: win in out && t in win.tabs ==>
          && Chosen(l, browser, profile, sel, t.tabKey)
          && win.windowId == l.tabs[t.tabKey].windowId && TabOffered(t, t.tabKey, l.tabs[t.tabKey]))
  }

  ghost predicate CarriesSecrets(out: seq<RestoreWindow>, l: Live, now: int, browser: string, profile: string,
                                 named: set<string>) {
    && Tidy(out, l)
    && (forall k :: ChosenSecret(l, now, browser, profile, named, k) ==>
          exists t :: InWindow(out, l.secrets[k].windowId, t) && SecretOffered(t, k, l.secrets[k]))
    && (forall win, t :: win in out && t in win.tabs ==>
          && ChosenSecret(l, now, browser, profile, named, t.tabKey)
          && win.windowId == l.secrets[t.tabKey].windowId && SecretOffered(t, t.tabKey, l.secrets[t.tabKey]))
  }

  // ----- Queries -----

  /** The rows of a query `ORDER BY tab_index`; equal indices may come in either order. */
  ghost predicate Lists(tabs: seq<RestoreTab>, rows: set<RestoreTab>) {
    && (forall t :: t in tabs <==> t in rows)
    && (forall i, j :: 0 <= i < j < |tabs| ==> tabs[i] != tabs[j] && tabs[i].index <= tabs[j].index)
  }

  method OrderByIndex(rows: set<RestoreTab>) returns (tabs: seq<RestoreTab>)
    ensures Lists(tabs, rows)
  {
    tabs := [];
    var rest := rows;
    while rest != {}
      invariant rest <= rows && Lists(tabs, rows - rest)
      invariant forall t, u :: t in tabs && u in rest ==> t.index <= u.index
      decreases |rest|
    {
      var first := Lowest(rest);
      rest := rest - {first};
      tabs := tabs + [first];
    }
    assert rows - rest == rows;
  }

  method Lowest(rows: set<RestoreTab>) returns (first: RestoreTab)
    requires rows != {}
    ensures first in rows && forall t :: t in rows ==> first.index <= t.index
  {
    assert exists t :: t in rows by { if forall t :: t !in rows { assert false; } }
    first :| first in rows;
    var rest := rows - {first};
    while rest != {}
      invariant first in rows && rest <= rows
      invariant forall t :: t in rows && t !in rest ==> first.index <= t.index
      decreases |rest|
    {
      assert exists t :: t in rest by { if forall t :: t !in rest { assert false; } }
      var t :| t in rest;
      rest := rest - {t};
      if t.index < first.index { first := t; }
    }
  }

  function WindowOf(id: string, row: WindowRow, tabs: seq<RestoreTab>): RestoreWindow {
    RestoreWindow(id, row.isPrivate, row.state, row.x, row.y, row.w, row.h, tabs)
  }

  function ProfileWindows(l: Live, browser: string, profile: string, isPrivate: bool): set<string> {
    set w | w in l.windows && l.windows[w].browser == browser && l.windows[w].profile == profile
            && l.windows[w].isPrivate == isPrivate
  }

  type TabsOf = string -> set<RestoreTab>

  predicate DistinctIds(out: seq<RestoreWindow>) {
    forall i, j :: 0 <= i < j < |out| ==> out[i].windowId != out[j].windowId
  }

  /** Exactly these windows, once each, with exactly these tabs, leaving out those with none. */
  ghost predicate Shows(out: seq<RestoreWindow>, l: Live, ids: set<string>, tabsOf: TabsOf) {
    && (forall win :: win in out ==>
          && win.windowId in ids && win.windowId in l.windows
          && win == WindowOf(win.windowId, l.windows[win.windowId], win.tabs)
          && Lists(win.tabs, tabsOf(win.windowId)) && win.tabs != [])
    && (forall w :: w in ids && tabsOf(w) != {} ==> exists win :: win in out && win.windowId == w)
    && DistinctIds(out)
  }

  lemma ShowsMore(out: seq<RestoreWindow>, l: Live, done: set<string>, tabsOf: TabsOf, w: string, tabs: seq<RestoreTab>)
    requires Shows(out, l, done, tabsOf) && w !in done && w in l.windows && Lists(tabs, tabsOf(w))
    ensures Shows(if tabs == [] then out else out + [WindowOf(w, l.windows[w], tabs)], l, done + {w}, tabsOf)
  {
    if tabs == [] {
      assert tabsOf(w) == {};
    } else {
      var win := WindowOf(w, l.windows[w], tabs);
      assert win in out + [win];
      forall v | v in done + {w} && tabsOf(v) != {} ensures exists x :: x in out + [win] && x.windowId == v {
        if v in done {
          var x :| x in out && x.windowId == v;
          assert x in out + [win];
        }
      }
    }
  }

  // ----- The normal payload -----

  function NormalTab(k: string, row: TabRow): RestoreTab {
    RestoreTab(k, row.url, row.title, row.index, row.pinned, row.active, row.groupKey)
  }

  function RestorableTabs(l: Live): TabsOf {
    w => set k | k in l.tabs && l.tabs[k].windowId == w && l.tabs[k].restorable :: NormalTab(k, l.tabs[k])
  }

  method BuildPayload(l: Live, browser: string, profile: string) returns (out: seq<RestoreWindow>)
    ensures Shows(out, l, ProfileWindows(l, browser, profile, false), RestorableTabs(l))
    ensures CarriesTabs(out, l, browser, profile, None)
  {
    var ids := ProfileWindows(l, browser, profile, false);
    out := [];
    var rest := ids;
    assert ids - rest == {};
    while rest != {}
      invariant rest <= ids && Shows(out, l, ids - rest, RestorableTabs(l))
      decreases |rest|
    {
      assert exists w :: w in rest by { if forall w :: w !in rest { assert false; } }
      var w :| w in rest;
      var tabs := OrderByIndex(RestorableTabs(l)(w));
      ShowsMore(out, l, ids - rest, RestorableTabs(l), w, tabs);
      assert ids - rest + {w} == ids - (rest - {w});
      rest := rest - {w};
      if tabs != [] { out := out + [WindowOf(w, l.windows[w], tabs)]; }
    }
    assert ids - rest == ids;
    ShowsCarries(out, l, browser, profile, None);
  }

  // ----- The private payload -----

  predicate Current(row: PrivateTab, now: int) { !(row.expiresAt < now) }

  function PrivateRestoreTab(k: string, row: PrivateTab): RestoreTab
    requires row.payload.Some?
  {
    var p := row.payload.value;
    RestoreTab(k, p.url, p.title, row.index, p.pinned, p.active, None)
  }

  function ReadableTabs(l: Live, now: int): TabsOf {
    w => set k | k in l.secrets && l.secrets[k].windowId == w && Current(l.secrets[k], now)
                   && l.secrets[k].payload.Some?
             :: PrivateRestoreTab(k, l.secrets[k])
  }

  /** Every current private row of the window opens. */
  predicate Readable(l: Live, w: string, now: int) {
    forall k | k in l.secrets && l.secrets[k].windowId == w && Current(l.secrets[k], now) ::
      l.secrets[k].payload.Some?
  }

  predicate AllReadable(l: Live, ids: set<string>, now: int) { forall w :: w in ids ==> Readable(l, w, now) }

  /** Opens the rows of one window that are not past their time. */
  method OpenTabs(l: Live, w: string, now: int) returns (tabs: Option<seq<RestoreTab>>)
    ensures tabs.Some? <==> Readable(l, w, now)
    ensures tabs.Some? ==> Lists(tabs.value, ReadableTabs(l, now)(w))
  {
    var shut := set k | k in l.secrets && l.secrets[k].windowId == w && Current(l.secrets[k], now)
                          && l.secrets[k].payload.None?;
    if shut != {} {
      assert exists k :: k in shut by { if forall k :: k !in shut { assert false; } }
      return None;
    }
    forall k | k in l.secrets && l.secrets[k].windowId == w && Current(l.secrets[k], now)
      ensures l.secrets[k].payload.Some? {
      assert k !in shut;
    }
    var listed := OrderByIndex(ReadableTabs(l, now)(w));
    tabs := Some(listed);
  }

  /** None is the error: capture is off, or a current row does not open. Expired rows are skipped unopened. */
  method BuildPrivatePayload(l: Live, capturePrivate: bool, now: int, browser: string, profile: string)
    returns (out: Option<seq<RestoreWindow>>)
    ensures out.Some? <==> capturePrivate && AllOpen(l, now, browser, profile)
    ensures out.Some? ==> Shows(out.value, l, ProfileWindows(l, browser, profile, true), ReadableTabs(l, now))
    ensures out.Some? ==> CarriesSecrets(out.value, l, now, browser, profile, {})
  {
    ReadableIs(l, now, browser, profile);
    if !capturePrivate { return None; }
    var ids := ProfileWindows(l, browser, profile, true);
    var windows := [];
    var rest := ids;
    assert ids - rest == {};
    while rest != {}
      invariant rest <= ids && Shows(windows, l, ids - rest, ReadableTabs(l, now))
      invariant AllReadable(l, ids - rest, now)
      decreases |rest|
    {
      assert exists w :: w in rest by { if forall w :: w !in rest { assert false; } }
      var w :| w in rest;
      var tabs := OpenTabs(l, w, now);
      if tabs.None? { return None; }
      ShowsMore(windows, l, ids - rest, ReadableTabs(l, now), w, tabs.value);
      assert ids - rest + {w} == ids - (rest - {w});
      rest := rest - {w};
      if tabs.value != [] { windows := windows + [WindowOf(w, l.windows[w], tabs.value)]; }
    }
    assert ids - rest == ids;
    ShowsSecrets(windows, l, now, browser, profile, {});
    out := Some(windows);
  }

  // ----- The review's choice -----

  function RetainTabs(tabs: seq<RestoreTab>, wanted: set<string>): (r: seq<RestoreTab>)
    ensures forall t :: t in r <==> t in tabs && t.tabKey in wanted
  {
    if tabs == [] then []
    else (if tabs[0].tabKey in wanted then [tabs[0]] else []) + RetainTabs(tabs[1..], wanted)
  }

  lemma ListsCons(first: RestoreTab, rest: seq<RestoreTab>, rows: set<RestoreTab>)
    requires Lists(rest, rows) && forall t :: t in rows ==> t != first && first.index <= t.index
    ensures Lists([first] + rest, {first} + rows)
  {
    var all := [first] + rest;
    forall i, j | 0 <= i < j < |all| ensures all[i] != all[j] && all[i].index <= all[j].index {
      assert all[j] == rest[j-1] && rest[j-1] in rows;
      if i > 0 { assert all[i] == rest[i-1]; }
    }
  }

  function Keeping(rows: set<RestoreTab>, wanted: set<string>): set<RestoreTab> {
    set t | t in rows && t.tabKey in wanted
  }

  lemma ListsTail(tabs: seq<RestoreTab>, rows: set<RestoreTab>)
    requires Lists(tabs, rows) && tabs != []
    ensures var tail := set t | t in tabs[1..];
      && Lists(tabs[1..], tail) && rows == {tabs[0]} + tail
      && forall t :: t in tail ==> t != tabs[0] && tabs[0].index <= t.index
  {
    assert tabs == [tabs[0]] + tabs[1..];
  }

  lemma KeepingMore(first: RestoreTab, tail: set<RestoreTab>, wanted: set<string>)
    ensures Keeping({first} + tail, wanted)
            == if first.tabKey in wanted then {first} + Keeping(tail, wanted) else Keeping(tail, wanted)
  {
  }

  lemma KeepingNone(rows: set<RestoreTab>, wanted: set<string>)
    requires Lists([], rows)
    ensures Lists([], Keeping(rows, wanted))
  {
    forall t ensures t !in Keeping(rows, wanted) {
      assert t !in rows;
    }
  }

  lemma {:induction false} RetainLists(tabs: seq<RestoreTab>, rows: set<RestoreTab>, wanted: set<string>)
    requires Lists(tabs, rows)
    ensures Lists(RetainTabs(tabs, wanted), Keeping(rows, wanted))
  {
    if tabs == [] {
      KeepingNone(rows, wanted);
    } else {
      var tail := set t | t in tabs[1..];
      ListsTail(tabs, rows);
      RetainLists(tabs[1..], tail, wanted);
      KeepingMore(tabs[0], tail, wanted);
      if tabs[0].tabKey in wanted {
        ListsCons(tabs[0], RetainTabs(tabs[1..], wanted), Keeping(tail, wanted));
      } else {
        assert RetainTabs(tabs, wanted) == RetainTabs(tabs[1..], wanted);
      }
    }
  }

  /** Keeps the wanted tabs of every window, then the windows that still have any. */
  function Retain(windows: seq<RestoreWindow>, wanted: set<string>): seq<RestoreWindow> {
    if windows == [] then []
    else
      var kept := windows[0].(tabs := RetainTabs(windows[0].tabs, wanted));
      (if kept.tabs != [] then [kept] else []) + Retain(windows[1..], wanted)
  }

  function RetainWindows(windows: seq<RestoreWindow>, ids: set<string>): seq<RestoreWindow> {
    if windows == [] then []
    else (if windows[0].windowId in ids then [windows[0]] else []) + RetainWindows(windows[1..], ids)
  }

  function Wanted(tabsOf: TabsOf, wanted: set<string>): TabsOf {
    w => Keeping(tabsOf(w), wanted)
  }

  lemma {:induction false} RetainIds(windows: seq<RestoreWindow>, wanted: set<string>)
    ensures forall win :: win in Retain(windows, wanted) ==>
      win.tabs != [] && exists was :: was in windows && win == was.(tabs := RetainTabs(was.tabs, wanted))
    ensures forall was :: was in windows && RetainTabs(was.tabs, wanted) != [] ==>
      was.(tabs := RetainTabs(was.tabs, wanted)) in Retain(windows, wanted)
  {
    if windows != [] {
      RetainIds(windows[1..], wanted);
      forall win | win in Retain(windows, wanted)
        ensures win.tabs != [] && exists was :: was in windows && win == was.(tabs := RetainTabs(was.tabs, wanted))
      {
        if win !in Retain(windows[1..], wanted) { assert windows[0] in windows; }
      }
    }
  }

  lemma ConsDistinct(win: RestoreWindow, out: seq<RestoreWindow>)
    requires DistinctIds(out) && forall other :: other in out ==> other.windowId != win.windowId
    ensures DistinctIds([win] + out)
  {
  }

  lemma {:induction false} RetainDistinct(windows: seq<RestoreWindow>, wanted: set<string>)
    requires DistinctIds(windows)
    ensures DistinctIds(Retain(windows, wanted))
  {
    if windows != [] {
      var r := Retain(windows[1..], wanted);
      RetainDistinct(windows[1..], wanted);
      RetainIds(windows[1..], wanted);
      forall win | win in r ensures win.windowId != windows[0].windowId {
        var was :| was in windows[1..] && win == was.(tabs := RetainTabs(was.tabs, wanted));
      }
      var kept := windows[0].(tabs := RetainTabs(windows[0].tabs, wanted));
      ConsDistinct(kept, r);
      assert [] + r == r;
    }
  }

  lemma RetainShows(out: seq<RestoreWindow>, l: Live, ids: set<string>, tabsOf: TabsOf, wanted: set<string>)
    requires Shows(out, l, ids, tabsOf)
    ensures Shows(Retain(out, wanted), l, ids, Wanted(tabsOf, wanted))
  {
    var r := Retain(out, wanted);
    RetainIds(out, wanted);
    RetainDistinct(out, wanted);
    forall win | win in r
      ensures win.windowId in ids && win.windowId in l.windows
              && win == WindowOf(win.windowId, l.windows[win.windowId], win.tabs)
      ensures Lists(win.tabs, Wanted(tabsOf, wanted)(win.windowId)) && win.tabs != []
    {
      var was :| was in out && win == was.(tabs := RetainTabs(was.tabs, wanted));
      RetainLists(was.tabs, tabsOf(was.windowId), wanted);
    }
    forall w | w in ids && Wanted(tabsOf, wanted)(w) != {} ensures exists win :: win in r && win.windowId == w {
      assert exists t :: t in Wanted(tabsOf, wanted)(w)
        by { if forall t :: t !in Wanted(tabsOf, wanted)(w) { assert false; } }
      var t :| t in Wanted(tabsOf, wanted)(w);
      assert t in tabsOf(w);
      var was :| was in out && was.windowId == w;
      assert t in was.tabs && t in RetainTabs(was.tabs, wanted);
      assert was.(tabs := RetainTabs(was.tabs, wanted)) in r;
    }
  }

  lemma {:induction false} RetainedWindows(windows: seq<RestoreWindow>, ids: set<string>)
    ensures forall win :: win in RetainWindows(windows, ids) <==> win in windows && win.windowId in ids
    ensures DistinctIds(windows) ==> DistinctIds(RetainWindows(windows, ids))
  {
    if windows != [] {
      var r := RetainWindows(windows[1..], ids);
      RetainedWindows(windows[1..], ids);
      assert windows == [windows[0]] + windows[1..];
      if DistinctIds(windows) { ConsDistinct(windows[0], r); }
      assert [] + r == r;
    }
  }

  lemma RetainWindowsShows(out: seq<RestoreWindow>, l: Live, ids: set<string>, tabsOf: TabsOf, chosen: set<string>)
    requires Shows(out, l, ids, tabsOf)
    ensures Shows(RetainWindows(out, chosen), l, ids * chosen, tabsOf)
  {
    RetainedWindows(out, chosen);
  }

  // ----- The offer -----

  /** The normal tabs an offer may carry: restorable ones, and if the review names tabs, only those. */
  function OfferedTabs(l: Live, sel: Option<Selection>): TabsOf {
    if sel.Some? && sel.value.tabs != {} then Wanted(RestorableTabs(l), sel.value.tabs) else RestorableTabs(l)
  }

  function OfferedWindows(l: Live, browser: string, profile: string, sel: Option<Selection>): set<string> {
    if sel.Some? then ProfileWindows(l, browser, profile, false) * sel.value.windows
    else ProfileWindows(l, browser, profile, false)
  }

  function OfferedPrivateTabs(l: Live, now: int, named: set<string>): TabsOf {
    if named != {} then Wanted(ReadableTabs(l, now), named) else ReadableTabs(l, now)
  }

  lemma ShowsTidy(out: seq<RestoreWindow>, l: Live, ids: set<string>, tabsOf: TabsOf)
    requires Shows(out, l, ids, tabsOf)
    ensures Tidy(out, l)
  {
    forall win | win in out
      ensures forall i, j :: 0 <= i < j < |win.tabs| ==>
        win.tabs[i] != win.tabs[j] && win.tabs[i].index <= win.tabs[j].index
    {
      assert Lists(win.tabs, tabsOf(win.windowId));
    }
  }

  lemma ShowsIn(out: seq<RestoreWindow>, l: Live, ids: set<string>, tabsOf: TabsOf, w: string, t: RestoreTab)
    requires Shows(out, l, ids, tabsOf) && w in ids && t in tabsOf(w)
    ensures InWindow(out, w, t)
  {
    assert tabsOf(w) != {};
    var win :| win in out && win.windowId == w;
    assert Lists(win.tabs, tabsOf(w));
  }

  lemma ChosenIsOffered(out: seq<RestoreWindow>, l: Live, browser: string, profile: string, sel: Option<Selection>,
                        k: string)
    requires Shows(out, l, OfferedWindows(l, browser, profile, sel), OfferedTabs(l, sel))
    requires Chosen(l, browser, profile, sel, k)
    ensures exists t :: InWindow(out, l.tabs[k].windowId, t) && TabOffered(t, k, l.tabs[k])
  {
    var w, t := l.tabs[k].windowId, NormalTab(k, l.tabs[k]);
    assert t in RestorableTabs(l)(w);
    assert t in OfferedTabs(l, sel)(w);
    ShowsIn(out, l, OfferedWindows(l, browser, profile, sel), OfferedTabs(l, sel), w, t);
  }

  lemma OfferedIsChosen(out: seq<RestoreWindow>, l: Live, browser: string, profile: string, sel: Option<Selection>,
                        win: RestoreWindow, t: RestoreTab)
    requires Shows(out, l, OfferedWindows(l, browser, profile, sel), OfferedTabs(l, sel))
    requires win in out && t in win.tabs
    ensures Chosen(l, browser, profile, sel, t.tabKey)
    ensures win.windowId == l.tabs[t.tabKey].windowId && TabOffered(t, t.tabKey, l.tabs[t.tabKey])
  {
    assert t in OfferedTabs(l, sel)(win.windowId);
    assert t in RestorableTabs(l)(win.windowId);
  }

  lemma ShowsCarries(out: seq<RestoreWindow>, l: Live, browser: string, profile: string, sel: Option<Selection>)
    requires Shows(out, l, OfferedWindows(l, browser, profile, sel), OfferedTabs(l, sel))
    ensures CarriesTabs(out, l, browser, profile, sel)
  {
    ShowsTidy(out, l, OfferedWindows(l, browser, profile, sel), OfferedTabs(l, sel));
    forall k | Chosen(l, browser, profile, sel, k)
      ensures exists t :: InWindow(out, l.tabs[k].windowId, t) && TabOffered(t, k, l.tabs[k])
    {
      ChosenIsOffered(out, l, browser, profile, sel, k);
    }
    forall win, t | win in out && t in win.tabs
      ensures Chosen(l, browser, profile, sel, t.tabKey)
      ensures win.windowId == l.tabs[t.tabKey].windowId && TabOffered(t, t.tabKey, l.tabs[t.tabKey])
    {
      OfferedIsChosen(out, l, browser, profile, sel, win, t);
    }
  }

  lemma ReadableIs(l: Live, now: int, browser: string, profile: string)
    ensures AllReadable(l, ProfileWindows(l, browser, profile, true), now) <==> AllOpen(l, now, browser, profile)
  {
    var ids := ProfileWindows(l, browser, profile, true);
    if AllReadable(l, ids, now) {
      forall k | CurrentSecret(l, now, browser, profile, k) ensures l.secrets[k].payload.Some? {
        assert Readable(l, l.secrets[k].windowId, now);
      }
    } else {
      var w :| w in ids && !Readable(l, w, now);
      var k :| k in l.secrets && l.secrets[k].windowId == w && Current(l.secrets[k], now) && l.secrets[k].payload.None?;
      assert CurrentSecret(l, now, browser, profile, k);
    }
  }

  lemma ChosenSecretIsOffered(out: seq<RestoreWindow>, l: Live, now: int, browser: string, profile: string,
                              named: set<string>, k: string)
    requires Shows(out, l, ProfileWindows(l, browser, profile, true), OfferedPrivateTabs(l, now, named))
    requires ChosenSecret(l, now, browser, profile, named, k) && l.secrets[k].payload.Some?
    ensures exists t :: InWindow(out, l.secrets[k].windowId, t) && SecretOffered(t, k, l.secrets[k])
  {
    var w, t := l.secrets[k].windowId, PrivateRestoreTab(k, l.secrets[k]);
    assert t in ReadableTabs(l, now)(w);
    assert t in OfferedPrivateTabs(l, now, named)(w);
    ShowsIn(out, l, ProfileWindows(l, browser, profile, true), OfferedPrivateTabs(l, now, named), w, t);
  }

  lemma OfferedSecretIsChosen(out: seq<RestoreWindow>, l: Live, now: int, browser: string, profile: string,
                              named: set<string>, win: RestoreWindow, t: RestoreTab)
    requires Shows(out, l, ProfileWindows(l, browser, profile, true), OfferedPrivateTabs(l, now, named))
    requires win in out && t in win.tabs
    ensures ChosenSecret(l, now, browser, profile, named, t.tabKey)
    ensures win.windowId == l.secrets[t.tabKey].windowId && SecretOffered(t, t.tabKey, l.secrets[t.tabKey])
  {
    assert t in OfferedPrivateTabs(l, now, named)(win.windowId);
    assert t in ReadableTabs(l, now)(win.windowId);
  }

  lemma ShowsSecrets(out: seq<RestoreWindow>, l: Live, now: int, browser: string, profile: string, named: set<string>)
    requires AllOpen(l, now, browser, profile)
    requires Shows(out, l, ProfileWindows(l, browser, profile, true), OfferedPrivateTabs(l, now, named))
    ensures CarriesSecrets(out, l, now, browser, profile, named)
  {
    ShowsTidy(out, l, ProfileWindows(l, browser, profile, true), OfferedPrivateTabs(l, now, named));
    forall k | ChosenSecret(l, now, browser, profile, named, k)
      ensures exists t :: InWindow(out, l.secrets[k].windowId, t) && SecretOffered(t, k, l.secrets[k])
    {
      ChosenSecretIsOffered(out, l, now, browser, profile, named, k);
    }
    forall win, t | win in out && t in win.tabs
      ensures ChosenSecret(l, now, browser, profile, named, t.tabKey)
      ensures win.windowId == l.secrets[t.tabKey].windowId && SecretOffered(t, t.tabKey, l.secrets[t.tabKey])
    {
      OfferedSecretIsChosen(out, l, now, browser, profile, named, win, t);
    }
  }

  method NormalPart(l: Live, browser: string, profile: string, sel: Option<Selection>) returns (out: seq<RestoreWindow>)
    ensures Shows(out, l, OfferedWindows(l, browser, profile, sel), OfferedTabs(l, sel))
    ensures CarriesTabs(out, l, browser, profile, sel)
  {
    out := BuildPayload(l, browser, profile);
    if sel.Some? {
      var ids := ProfileWindows(l, browser, profile, false);
      RetainWindowsShows(out, l, ids, RestorableTabs(l), sel.value.windows);
      out := RetainWindows(out, sel.value.windows);
      if sel.value.tabs != {} {
        RetainShows(out, l, ids * sel.value.windows, RestorableTabs(l), sel.value.tabs);
        out := Retain(out, sel.value.tabs);
      }
    }
    ShowsCarries(out, l, browser, profile, sel);
  }

  /** A private payload that cannot be built adds nothing and does not stop the ordinary one. */
  method PrivatePart(l: Live, capturePrivate: bool, now: int, browser: string, profile: string, sel: Option<Selection>)
    returns (out: seq<RestoreWindow>)
    ensures if sel.Some? && sel.value.restorePrivate && capturePrivate && AllOpen(l, now, browser, profile)
            then CarriesSecrets(out, l, now, browser, profile, sel.value.privateTabs)
            else out == []
  {
    out := [];
    if sel.Some? && sel.value.restorePrivate {
      var built := BuildPrivatePayload(l, capturePrivate, now, browser, profile);
      if built.Some? {
        var named := sel.value.privateTabs;
        out := built.value;
        if named != {} {
          RetainShows(out, l, ProfileWindows(l, browser, profile, true), ReadableTabs(l, now), named);
          out := Retain(out, named);
        }
        ShowsSecrets(out, l, now, browser, profile, named);
      }
    }
  }

  datatype Body = Body(runId: int, normal: seq<RestoreWindow>, secret: seq<RestoreWindow>)

  ghost predicate SecretsWanted(l: Live, capturePrivate: bool, now: int, browser: string, profile: string,
                                sel: Option<Selection>) {
    sel.Some? && sel.value.restorePrivate && capturePrivate && AllOpen(l, now, browser, profile)
  }

  /** What an offer carries, in terms of the stored columns alone. */
  ghost predicate Carries(body: Body, l: Live, capturePrivate: bool, now: int, browser: string, profile: string,
                          sel: Option<Selection>) {
    && CarriesTabs(body.normal, l, browser, profile, sel)
    && if SecretsWanted(l, capturePrivate, now, browser, profile, sel)
       then CarriesSecrets(body.secret, l, now, browser, profile, sel.value.privateTabs)
       else body.secret == []
  }

  lemma SomeChosen(out: seq<RestoreWindow>, l: Live, browser: string, profile: string, sel: Option<Selection>)
    requires CarriesTabs(out, l, browser, profile, sel)
    ensures out != [] <==> exists k :: Chosen(l, browser, profile, sel, k)
  {
    if out != [] {
      assert out[0] in out && out[0].tabs[0] in out[0].tabs;
      assert Chosen(l, browser, profile, sel, out[0].tabs[0].tabKey);
    }
    if k :| Chosen(l, browser, profile, sel, k) {
      var t :| InWindow(out, l.tabs[k].windowId, t) && TabOffered(t, k, l.tabs[k]);
    }
  }

  /**
   What follows the claim. A run is opened exactly when an offer is sent, and then its undo point
   is the only other thing written. The claim is already spent when the mode says off, when
   several profiles are stored and none matches, and when no chosen tab is left: private windows
   alone are never offered.
   */
  method OfferClaimed(db: Db, snapshotId: int, mode: string, capturePrivate: bool, now: int, browser: string,
                      connecting: string, sel: Option<Selection>, at: Times)
    returns (offer: Option<Body>, profile: Option<string>, ghost pick: Option<int>)
    modifies db
    ensures var l := Session(old(db.View()), snapshotId);
      && (mode == "off" ==> profile.None?)
      && (mode != "off" ==> forall p :: profile == Some(p) <==> Resolves(l, browser, connecting, p))
      && (offer.Some? <==> profile.Some? && exists k :: Chosen(l, browser, profile.value, sel, k))
      && (offer.Some? ==> Carries(offer.value, l, capturePrivate, now, browser, profile.value, sel))
    ensures offer.Some? ==>
      && Shares(old(db.runs), snapshotId, at.looked, pick)
      && (db.View(), offer.value.runId) == Store.BeginRun(old(db.View()), snapshotId, mode, at, pick)
    ensures offer.None? ==> db.View() == old(db.View())
  {
    pick := None;
    if mode == "off" { return None, None, None; }
    var l := Session(db.View(), snapshotId);
    profile := EffectiveProfile(l, browser, connecting);
    if profile.None? { return None, None, None; }
    var normal := NormalPart(l, browser, profile.value, sel);
    SomeChosen(normal, l, browser, profile.value, sel);
    if normal == [] { return None, profile, None; }
    var secret := PrivatePart(l, capturePrivate, now, browser, profile.value, sel);
    var runId;
    runId, pick := db.BeginRun(snapshotId, mode, at);
    offer := Some(Body(runId, normal, secret));
  }

  /** Profiles never mix: every window of an offer was stored under the one profile it was built for. */
  lemma OneProfile(body: Body, l: Live, capturePrivate: bool, now: int, browser: string, profile: string,
                   sel: Option<Selection>)
    requires Carries(body, l, capturePrivate, now, browser, profile, sel)
    ensures forall win :: win in body.normal ==> Held(l, win.windowId, browser, profile, false) && !win.isPrivate
    ensures forall win :: win in body.secret ==> Held(l, win.windowId, browser, profile, true) && win.isPrivate
    ensures body.secret != [] ==> sel.Some? && sel.value.restorePrivate && capturePrivate
  {
    forall win | win in body.normal ensures Held(l, win.windowId, browser, profile, false) && !win.isPrivate {
      var t := win.tabs[0];
      assert t in win.tabs;
      assert Chosen(l, browser, profile, sel, t.tabKey) && win.windowId == l.tabs[t.tabKey].windowId;
    }
    forall win | win in body.secret ensures Held(l, win.windowId, browser, profile, true) && win.isPrivate {
      assert SecretsWanted(l, capturePrivate, now, browser, profile, sel);
      var t := win.tabs[0];
      assert t in win.tabs;
      assert ChosenSecret(l, now, browser, profile, sel.value.privateTabs, t.tabKey)
             && win.windowId == l.secrets[t.tabKey].windowId;
    }
  }
}
