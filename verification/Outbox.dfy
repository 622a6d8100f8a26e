/**
 The debounced, coalescing outbox (extension/src/background/outbox.ts) over the `send` and
 `persist` of extension/src/background/index.ts:130-144. That `send` returns before any other
 event can run, so the batches of one flush go out together; the storage write behind
 `persist` takes time, and `flushing` stays set until it is done, so events, timers and
 evictions can come in between. Pipeline.dfy also covers a send that takes time.
 */
module Outbox {
  import opened Protocol
  import opened LiveTables

  const MAX_PENDING_BEFORE_FLUSH := 50
  const MAX_TABS_PER_MESSAGE := 200

  datatype PendingState = PendingState(
    tabs: map<string, TabDelta>, windows: map<string, WindowDelta>, groups: map<string, GroupDelta>)

  const EMPTY_STATE := PendingState(map[], map[], map[])

  /** `{ ...older, ...newer }`, table by table. */
  function Merge(older: PendingState, newer: PendingState): PendingState {
    PendingState(older.tabs + newer.tabs, older.windows + newer.windows, older.groups + newer.groups)
  }

  function Put(p: PendingState, d: Delta): PendingState {
    match d
    case Win(w) => p.(windows := p.windows[w.windowId := w])
    case Tab(t, _) => p.(tabs := p.tabs[t.tabKey := t])
    case Grp(g) => p.(groups := p.groups[g.groupKey := g])
  }

  function Count(p: PendingState): nat { |p.tabs| + |p.windows| + |p.groups| }

  /** Every delta is filed under its own key. */
  ghost predicate WellKeyed(p: PendingState) {
    && (forall k :: k in p.tabs ==> p.tabs[k].tabKey == k)
    && (forall k :: k in p.windows ==> p.windows[k].windowId == k)
    && (forall k :: k in p.groups ==> p.groups[k].groupKey == k)
  }

  // ----- Splitting into messages -----

  /** `vs` lists the values of `m`, each key once, in some order. */
  ghost predicate Lists<V(!new)>(vs: seq<V>, m: map<string, V>) {
    exists ks: seq<string> :: ListsBy(vs, m, ks)
  }

  ghost predicate ListsBy<V(!new)>(vs: seq<V>, m: map<string, V>, ks: seq<string>) {
    && |ks| == |vs| == |m|
    && (forall i :: 0 <= i < |ks| ==> ks[i] in m && vs[i] == m[ks[i]])
    && (forall k :: k in m ==> k in ks)
  }

  function Slices(tabs: seq<TabDelta>): (out: seq<StateBody>)
    decreases |tabs|
  {
    if |tabs| <= MAX_TABS_PER_MESSAGE then (if tabs == [] then [] else [StateBody([], tabs, [])])
    else [StateBody([], tabs[..MAX_TABS_PER_MESSAGE], [])] + Slices(tabs[MAX_TABS_PER_MESSAGE..])
  }

  /** Windows and groups ride along with the first message. */
  function Riding(windows: seq<WindowDelta>, slices: seq<StateBody>, groups: seq<GroupDelta>): seq<StateBody> {
    if slices == [] then [] else [StateBody(windows, slices[0].tabs, groups)] + slices[1..]
  }

  function Batches(windows: seq<WindowDelta>, tabs: seq<TabDelta>, groups: seq<GroupDelta>): seq<StateBody> {
    var slices := Slices(tabs);
    if slices != [] then Riding(windows, slices, groups)
    else if windows == [] && groups == [] then []
    else [StateBody(windows, [], groups)]
  }

  ghost predicate IsSplit(out: seq<StateBody>, state: PendingState) {
    exists windows, tabs, groups ::
      && Lists(windows, state.windows) && Lists(tabs, state.tabs) && Lists(groups, state.groups)
      && out == Batches(windows, tabs, groups)
  }

  function AllTabs(out: seq<StateBody>): seq<TabDelta> {
    if out == [] then [] else out[0].tabs + AllTabs(out[1..])
  }

  lemma {:induction false} SlicesCarryTabs(tabs: seq<TabDelta>)
    ensures AllTabs(Slices(tabs)) == tabs
    ensures forall b :: b in Slices(tabs) ==> b.windows == [] && b.groups == [] && 1 <= |b.tabs| <= 200
    ensures forall i :: 0 <= i < |Slices(tabs)| - 1 ==> |Slices(tabs)[i].tabs| == 200
    decreases |tabs|
  {
    if |tabs| > MAX_TABS_PER_MESSAGE {
      var rest := Slices(tabs[MAX_TABS_PER_MESSAGE..]);
      SlicesCarryTabs(tabs[MAX_TABS_PER_MESSAGE..]);
      assert Slices(tabs)[1..] == rest;
      assert tabs == tabs[..MAX_TABS_PER_MESSAGE] + tabs[MAX_TABS_PER_MESSAGE..];
    }
  }

  /** Splitting keeps every delta, in order, in messages filled up to their limit; there are none for nothing. */
  lemma BatchesCarryAll(windows: seq<WindowDelta>, tabs: seq<TabDelta>, groups: seq<GroupDelta>)
    ensures var out := Batches(windows, tabs, groups);
      && AllTabs(out) == tabs
      && (forall b :: b in out ==> |b.tabs| <= 200) && (forall i :: 0 <= i < |out| - 1 ==> |out[i].tabs| == 200)
      && (out == [] <==> windows == [] && tabs == [] && groups == [])
      && (out != [] ==> out[0].windows == windows && out[0].groups == groups)
      && (forall i :: 0 < i < |out| ==> out[i].windows == [] && out[i].groups == [])
  {
    SlicesCarryTabs(tabs);
    var slices := Slices(tabs);
    if slices != [] {
      assert slices[0] in slices;
      assert forall i :: 0 < i < |slices| ==> slices[i] in slices;
      assert Batches(windows, tabs, groups)[1..] == slices[1..];
    }
  }

  method Values<V(!new)>(m: map<string, V>) returns (vs: seq<V>)
    ensures Lists(vs, m)
  {
    vs := [];
    ghost var ks: seq<string> := [];
    var left := m.Keys;
    while left != {}
      invariant left <= m.Keys
      invariant |ks| == |vs| == |m.Keys - left|
      invariant forall i :: 0 <= i < |ks| ==> ks[i] in m && vs[i] == m[ks[i]]
      invariant forall k :: k in m.Keys - left <==> k in ks
      decreases |left|
    {
      var k :| k in left;
      assert m.Keys - (left - {k}) == (m.Keys - left) + {k};
      left := left - {k};
      ks := ks + [k];
      vs := vs + [m[k]];
    }
    assert m.Keys - left == m.Keys;
    assert ListsBy(vs, m, ks);
  }

  method SplitBatches(state: PendingState) returns (out: seq<StateBody>)
    ensures IsSplit(out, state)
  {
    var tabs := Values(state.tabs);
    var windows := Values(state.windows);
    var groups := Values(state.groups);

    BatchesAre(windows, tabs, groups, state);
    if |tabs| == 0 {
      if |windows| == 0 && |groups| == 0 {
        return [];
      }
      return [StateBody(windows, [], groups)];
    }

    out := SliceTabs(windows, tabs, groups);
  }

  method SliceTabs(windows: seq<WindowDelta>, tabs: seq<TabDelta>, groups: seq<GroupDelta>)
    returns (out: seq<StateBody>)
    ensures out == Riding(windows, Slices(tabs), groups)
  {
    out := [];
    ghost var slices := [];
    var i := 0;
    while i < |tabs|
      invariant 0 <= i && (i == 0 <==> slices == [])
      invariant slices + Slices(From(tabs, i)) == Slices(tabs)
      invariant out == Riding(windows, slices, groups)
      decreases |tabs| - i
    {
      var end := if i + MAX_TABS_PER_MESSAGE < |tabs| then i + MAX_TABS_PER_MESSAGE else |tabs|;
      var slice := tabs[i..end];
      SliceStep(tabs, i, end);
      RidingStep(windows, slices, groups, slice);
      SlicesRegroup(slices, StateBody([], slice, []), Slices(From(tabs, end)));
      out := out + [if i == 0 then StateBody(windows, slice, groups) else StateBody([], slice, [])];
      slices := slices + [StateBody([], slice, [])];
      i := i + MAX_TABS_PER_MESSAGE;
      assert From(tabs, i) == From(tabs, end);
    }
    assert slices == Slices(tabs);
  }

  function From(tabs: seq<TabDelta>, i: nat): seq<TabDelta> { if i < |tabs| then tabs[i..] else [] }

  lemma BatchesAre(windows: seq<WindowDelta>, tabs: seq<TabDelta>, groups: seq<GroupDelta>, state: PendingState)
    requires Lists(windows, state.windows) && Lists(tabs, state.tabs) && Lists(groups, state.groups)
    ensures IsSplit(Batches(windows, tabs, groups), state)
    ensures tabs == [] ==> Batches(windows, tabs, groups)
                           == if windows == [] && groups == [] then [] else [StateBody(windows, [], groups)]
    ensures tabs != [] ==> Batches(windows, tabs, groups) == Riding(windows, Slices(tabs), groups)
    ensures From(tabs, 0) == tabs
  {
  }

  lemma RidingStep(windows: seq<WindowDelta>, slices: seq<StateBody>, groups: seq<GroupDelta>, slice: seq<TabDelta>)
    ensures Riding(windows, slices + [StateBody([], slice, [])], groups)
            == Riding(windows, slices, groups)
               + [if slices == [] then StateBody(windows, slice, groups) else StateBody([], slice, [])]
  {
  }

  lemma SlicesRegroup(a: seq<StateBody>, b: StateBody, c: seq<StateBody>)
    ensures a + ([b] + c) == (a + [b]) + c
  {
  }

  lemma SliceStep(tabs: seq<TabDelta>, i: nat, end: nat)
    requires i < |tabs| && end == if i + MAX_TABS_PER_MESSAGE < |tabs| then i + MAX_TABS_PER_MESSAGE else |tabs|
    ensures Slices(From(tabs, i)) == [StateBody([], tabs[i..end], [])] + Slices(From(tabs, end))
  {
    var rest := tabs[i..];
    assert rest[..end - i] == tabs[i..end];
    if end < |tabs| {
      assert rest[MAX_TABS_PER_MESSAGE..] == tabs[end..];
    } else {
      assert rest == tabs[i..end];
    }
  }

  // ----- The outbox -----

  /** How the next sends go: the one at `failAt` rejects, having reached the agent or not. */
  datatype Link = Up | Down(failAt: nat, delivered: bool)

  /** The messages that reach the agent when `batches` are sent over `link`. */
  function Delivered(batches: seq<StateBody>, link: Link): seq<StateBody> {
    match link
    case Up => batches
    case Down(failAt, delivered) =>
      if failAt >= |batches| then batches else if delivered then batches[..failAt+1] else batches[..failAt]
  }

  predicate Fails(batches: seq<StateBody>, link: Link) {
    link.Down? && link.failAt < |batches|
  }

  lemma MergeWellKeyed(older: PendingState, newer: PendingState)
    requires WellKeyed(older) && WellKeyed(newer)
    ensures WellKeyed(Merge(older, newer))
  {
  }

  // ----- What each call does -----

  datatype OutboxState = OutboxState(
    pending: PendingState,
    timer: bool,              // a debounce timer is armed
    flushing: bool,           // a flush is under way: its batches have been tried, its write is not done
    retrying: bool,           // that flush failed, and will arm a timer once its write is done
    mirror: PendingState,     // what storage.session holds
    sent: seq<StateBody>)     // what reached the agent, in order

  datatype Call = Post(d: Delta) | TimerOut | FlushNow | WriteDone | Evicted

  /** Everything pending is sent in batches, or, if one rejects, all of it is pending again. */
  ghost predicate Flushes(b: OutboxState, link: Link, b': OutboxState) {
    if b.flushing then b' == b
    else if b.pending == EMPTY_STATE then b' == b.(timer := false)
    else exists batches ::
      var left := if Fails(batches, link) then b.pending else EMPTY_STATE;
      && IsSplit(batches, b.pending)
      && b' == OutboxState(left, false, true, Fails(batches, link), left, b.sent + Delivered(batches, link))
  }

  /** Mirrored, and scheduled or, at the limit, flushed. */
  ghost predicate Touches(b: OutboxState, link: Link, b': OutboxState) {
    var b1 := b.(mirror := b.pending);
    if Count(b.pending) >= MAX_PENDING_BEFORE_FLUSH then Flushes(b1, link, b') else b' == b1.(timer := true)
  }

  ghost predicate Called(b: OutboxState, call: Call, link: Link, b': OutboxState) {
    match call
    case Post(d) => Touches(b.(pending := Put(b.pending, d)), link, b')
    case TimerOut => b.timer && Flushes(b.(timer := false), link, b')
    case FlushNow => Flushes(b, link, b')
    case WriteDone => b.flushing && b' == b.(timer := b.timer || b.retrying, flushing := false, retrying := false)
    case Evicted => b' == OutboxState(b.mirror, Count(b.mirror) > 0, false, false, b.mirror, b.sent)
  }

  class Outbox {
    var pending: PendingState
    var timer: bool
    var flushing: bool
    var retrying: bool
    var mirror: PendingState
    var sent: seq<StateBody>

    ghost function View(): OutboxState
      reads this
    {
      OutboxState(pending, timer, flushing, retrying, mirror, sent)
    }

    /** Between events the mirror holds exactly what is pending. */
    ghost predicate Valid()
      reads this
    {
      && mirror == pending
      && WellKeyed(pending)
      && (retrying ==> flushing)
    }

    /** Whatever is pending has a timer to send it, or a failed flush that will arm one. */
    predicate Armed()
      reads this
    {
      pending != EMPTY_STATE ==> timer || retrying
    }

    /** A new service-worker generation over what the previous one left in storage. */
    constructor (stored: PendingState)
      requires WellKeyed(stored)
      ensures Valid() && Armed() && View() == OutboxState(stored, Count(stored) > 0, false, false, stored, [])
    {
      pending := EMPTY_STATE;
      timer, flushing, retrying := false, false, false;
      mirror := stored;
      sent := [];
      new;
      MergeEmpty(stored);
      Hydrate(stored);
      if pending != EMPTY_STATE { NonEmptyCounts(pending); }
    }

    /** Merges what a previous generation left; anything newer in memory wins. */
    method Hydrate(state: PendingState)
      requires WellKeyed(state) && WellKeyed(pending)
      modifies this`pending, this`timer
      ensures pending == Merge(state, old(pending))
      ensures forall k :: k in old(pending).tabs ==> k in pending.tabs && pending.tabs[k] == old(pending).tabs[k]
      ensures timer == (old(timer) || Count(pending) > 0)
      ensures WellKeyed(pending)
    {
      MergeWellKeyed(state, pending);
      pending := Merge(state, pending);
      if Count(pending) > 0 { Schedule(); }
    }

    method EnqueueTab(d: TabDelta, link: Link)
      requires Valid()
      modifies this
      ensures Valid() && (old(Armed()) ==> Armed())
      ensures Called(old(View()), Post(Tab(d, 0)), link, View())
    {
      OneMore(pending, Tab(d, 0));
      pending := pending.(tabs := pending.tabs[d.tabKey := d]);
      Touch(link);
    }

    method EnqueueWindow(d: WindowDelta, link: Link)
      requires Valid()
      modifies this
      ensures Valid() && (old(Armed()) ==> Armed())
      ensures Called(old(View()), Post(Win(d)), link, View())
    {
      OneMore(pending, Win(d));
      pending := pending.(windows := pending.windows[d.windowId := d]);
      Touch(link);
    }

    method EnqueueGroup(d: GroupDelta, link: Link)
      requires Valid()
      modifies this
      ensures Valid() && (old(Armed()) ==> Armed())
      ensures Called(old(View()), Post(Grp(d)), link, View())
    {
      OneMore(pending, Grp(d));
      pending := pending.(groups := pending.groups[d.groupKey := d]);
      Touch(link);
    }

    method Touch(link: Link)
      requires WellKeyed(pending) && pending != EMPTY_STATE && (retrying ==> flushing)
      modifies this
      ensures Valid() && Touches(old(View()), link, View())
      ensures Count(old(pending)) < 50 || !old(flushing) || old(timer) || old(retrying) ==> Armed()
      ensures Count(old(pending)) < 50 ==> View() == old(View()).(mirror := old(pending), timer := true)
      ensures Count(old(pending)) >= 50 && !old(flushing) ==> flushing
    {
      // Persist before scheduling: dying between the two loses nothing.
      mirror := pending;
      if Count(pending) >= MAX_PENDING_BEFORE_FLUSH {
        Flush(link);
        return;
      }
      Schedule();
    }

    method Schedule()
      modifies this`timer
      ensures timer
    {
      timer := true;
    }

    /** The debounce timer runs out. During a flush this sends nothing, and the timer is gone. */
    method TimerFires(link: Link)
      requires Valid() && timer
      modifies this
      ensures Valid() && (old(flushing) || Armed())
      ensures Called(old(View()), TimerOut, link, View())
    {
      timer := false;
      Flush(link);
    }

    /**
     Sends everything pending in batches, unless a flush is under way. If a send rejects,
     everything outgoing is put back, including what had already been sent. The flush stays
     under way until its storage write is done.
     */
    method Flush(link: Link)
      requires Valid()
      modifies this
      ensures Valid() && (old(flushing) || Armed())
      ensures Called(old(View()), FlushNow, link, View())
    {
      if flushing { return; }
      timer := false;
      if Count(pending) == 0 {
        EmptyCounts(pending);
        return;
      }
      flushing := true;
      var outgoing := pending;
      pending := EMPTY_STATE;
      Drain(outgoing, link);
    }

    /** The sends of one flush, with the merge back when one rejects, up to the storage write. */
    method Drain(outgoing: PendingState, link: Link)
      requires pending == EMPTY_STATE && !retrying
      modifies this`pending, this`mirror, this`sent, this`retrying
      ensures mirror == pending && pending == if retrying then outgoing else EMPTY_STATE
      ensures exists batches ::
        IsSplit(batches, outgoing) && retrying == Fails(batches, link) && sent == old(sent) + Delivered(batches, link)
    {
      var batches := SplitBatches(outgoing);
      var failed := SendAll(batches, link);
      if failed {
        // Anything newer that arrived during the send wins.
        MergeEmpty(outgoing);
        pending := Merge(outgoing, pending);
        retrying := true;
      }
      mirror := pending;
    }

    /** The storage write is done: a failed flush arms a timer, and the flush is over. */
    method Saved()
      requires Valid() && flushing
      modifies this`timer, this`flushing, this`retrying
      ensures Valid() && (old(Armed()) ==> Armed())
      ensures Called(old(View()), WriteDone, Up, View())
    {
      if retrying { Schedule(); }
      retrying := false;
      flushing := false;
    }

    method SendAll(batches: seq<StateBody>, link: Link) returns (failed: bool)
      modifies this`sent
      ensures failed == Fails(batches, link)
      ensures sent == old(sent) + Delivered(batches, link)
    {
      for n := 0 to |batches|
        invariant sent == old(sent) + batches[..n]
        invariant link.Down? ==> n <= link.failAt
      {
        if link.Down? && n == link.failAt {
          if link.delivered { sent := sent + [batches[n]]; }
          return true;
        }
        sent := sent + [batches[n]];
      }
      assert batches[..|batches|] == batches;
      return false;
    }

    /** The service worker is evicted, during a flush's write or not, and the next one hydrates before it listens. */
    method Evict()
      requires Valid()
      modifies this
      ensures Valid() && Armed() && pending == old(pending)
      ensures Called(old(View()), Evicted, Up, View())
    {
      pending := EMPTY_STATE;
      timer, flushing, retrying := false, false, false;
      var stored := mirror;
      MergeEmpty(stored);
      Hydrate(stored);
      if pending != EMPTY_STATE { NonEmptyCounts(pending); }
    }
  }

  lemma PutCounts<V>(m: map<string, V>, k: string, v: V)
    ensures |m[k := v]| == if k in m then |m| else |m| + 1
  {
    assert m[k := v].Keys == m.Keys + {k};
    assert |m[k := v].Keys| == |m[k := v]| && |m.Keys| == |m|;
  }

  /** One delta more is at most one more. */
  lemma OneMore(p: PendingState, d: Delta)
    ensures 1 <= Count(Put(p, d)) <= Count(p) + 1 && Put(p, d) != EMPTY_STATE
    ensures WellKeyed(p) ==> WellKeyed(Put(p, d))
  {
    match d
    case Win(w) => PutCounts(p.windows, w.windowId, w);
    case Tab(t, _) => PutCounts(p.tabs, t.tabKey, t);
    case Grp(g) => PutCounts(p.groups, g.groupKey, g);
  }

  lemma MergeEmpty(p: PendingState)
    ensures Merge(p, EMPTY_STATE) == p
  {
    assert p.tabs + map[] == p.tabs && p.windows + map[] == p.windows && p.groups + map[] == p.groups;
  }

  lemma NonEmptyCounts(p: PendingState)
    requires p != EMPTY_STATE
    ensures Count(p) > 0
  {
    if Count(p) == 0 { EmptyCounts(p); }
  }

  lemma EmptyCounts(p: PendingState)
    requires Count(p) == 0
    ensures p == EMPTY_STATE
  {
    assert p.tabs == map[] && p.windows == map[] && p.groups == map[];
  }
}
