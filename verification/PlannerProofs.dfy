/**
 What the restore planner promises (extension/src/background/plan.ts): stored windows claim
 distinct, best-matching open windows; every wanted tab is accounted for once; carrying the
 plan out tops every claimed window up exactly; and planning again then creates nothing.
 */
module PlannerProofs {
  import opened Options
  import opened Planner

  // ----- Counting tabs by key -----

  function CountTabs(norm: Norm, tabs: seq<RestoreTab>, key: string): nat {
    if tabs == [] then 0
    else CountTabs(norm, tabs[..|tabs|-1], key) + (if norm(tabs[|tabs|-1].url) == key then 1 else 0)
  }

  function CountOpen(norm: Norm, open: seq<OpenTab>, ref: string, key: string): nat {
    if open == [] then 0
    else
      var t := open[|open|-1];
      CountOpen(norm, open[..|open|-1], ref, key) + (if t.windowRef == ref && norm(t.url) == key then 1 else 0)
  }

  lemma {:induction false} IndexCounts(norm: Norm, open: seq<OpenTab>, ref: string, key: string)
    requires key != ""
    ensures HaveIn(Index(norm, open), ref, key) == CountOpen(norm, open, ref, key)
  {
    if open != [] {
      IndexCounts(norm, open[..|open|-1], ref, key);
    }
  }

  lemma {:induction false} CountOpenConcat(norm: Norm, a: seq<OpenTab>, b: seq<OpenTab>, ref: string, key: string)
    ensures CountOpen(norm, a + b, ref, key) == CountOpen(norm, a, ref, key) + CountOpen(norm, b, ref, key)
  {
    if b == [] {
      assert a + b == a;
    } else {
      assert (a + b)[..|a + b|-1] == a + b[..|b|-1];
      CountOpenConcat(norm, a, b[..|b|-1], ref, key);
    }
  }

  lemma {:induction false} CountOpenZero(norm: Norm, open: seq<OpenTab>, ref: string, key: string)
    requires forall t :: t in open ==> t.windowRef != ref
    ensures CountOpen(norm, open, ref, key) == 0
  {
    if open != [] {
      assert open[|open|-1] in open;
      CountOpenZero(norm, open[..|open|-1], ref, key);
    }
  }

  lemma {:induction false} CountTabsPositive(norm: Norm, tabs: seq<RestoreTab>, i: nat)
    requires i < |tabs|
    ensures CountTabs(norm, tabs, norm(tabs[i].url)) > 0
  {
    if i < |tabs| - 1 {
      CountTabsPositive(norm, tabs[..|tabs|-1], i);
    }
  }

  lemma {:induction false} CountTabsZero(norm: Norm, tabs: seq<RestoreTab>, key: string)
    requires forall t :: t in tabs ==> norm(t.url) != key
    ensures CountTabs(norm, tabs, key) == 0
  {
    if tabs != [] {
      assert tabs[|tabs|-1] in tabs;
      CountTabsZero(norm, tabs[..|tabs|-1], key);
    }
  }

  lemma IndexSnoc(norm: Norm, open: seq<OpenTab>, t: OpenTab)
    ensures Index(norm, open + [t]) == AddOpen(norm, Index(norm, open), t)
  {
    assert (open + [t])[..|open|] == open;
  }

  lemma CountOpenSnoc(norm: Norm, open: seq<OpenTab>, t: OpenTab, ref: string, key: string)
    ensures CountOpen(norm, open + [t], ref, key)
            == CountOpen(norm, open, ref, key) + (if t.windowRef == ref && norm(t.url) == key then 1 else 0)
  {
    assert (open + [t])[..|open|] == open;
  }

  lemma CountTabsSnoc(norm: Norm, tabs: seq<RestoreTab>, t: RestoreTab, key: string)
    ensures CountTabs(norm, tabs + [t], key) == CountTabs(norm, tabs, key) + (if norm(t.url) == key then 1 else 0)
  {
    assert (tabs + [t])[..|tabs|] == tabs;
  }

  // ----- What is wanted -----

  function CountUsable(norm: Norm, tabs: seq<RestoreTab>): nat {
    if tabs == [] then 0
    else CountUsable(norm, tabs[..|tabs|-1]) + (if norm(tabs[|tabs|-1].url) != "" then 1 else 0)
  }

  /** `r` is what `all` holds at these places, in order. */
  ghost predicate Picks<T>(all: seq<T>, r: seq<T>, places: seq<nat>) {
    && |places| == |r|
    && (forall n :: 0 <= n < |r| ==> places[n] < |all| && r[n] == all[places[n]])
    && (forall m, n :: 0 <= m < n < |places| ==> places[m] < places[n])
  }

  lemma PicksMore<T>(all: seq<T>, n: nat, r: seq<T>, places: seq<nat>)
    requires |all| == n + 1 && Picks(all[..n], r, places)
    ensures Picks(all, r, places) && Picks(all, r + [all[n]], places + [n]) && n !in places
  {
    forall m | 0 <= m < |r| ensures places[m] < |all| && r[m] == all[places[m]] {
      assert all[..n][places[m]] == all[places[m]];
    }
  }

  lemma WantedSnoc(norm: Norm, tabs: seq<RestoreTab>, t: RestoreTab)
    ensures Wanted(norm, tabs + [t]) == if norm(t.url) != "" then Wanted(norm, tabs) + [t] else Wanted(norm, tabs)
  {
    assert (tabs + [t])[..|tabs|] == tabs;
  }

  /** These are the places of the tabs with a usable key. */
  ghost predicate UsablePlaces(norm: Norm, tabs: seq<RestoreTab>, places: seq<nat>) {
    forall i :: 0 <= i < |tabs| ==> (i in places <==> norm(tabs[i].url) != "")
  }

  lemma UsableMore(norm: Norm, tabs: seq<RestoreTab>, n: nat, places: seq<nat>)
    requires |tabs| == n + 1 && UsablePlaces(norm, tabs[..n], places) && n !in places
    ensures UsablePlaces(norm, tabs, if norm(tabs[n].url) != "" then places + [n] else places)
  {
    forall i | 0 <= i < n ensures i in places <==> norm(tabs[i].url) != "" {
      assert tabs[..n][i] == tabs[i];
    }
  }

  /** Wanted are the tabs with a usable key, and all of them, in the order stored. */
  lemma {:induction false} WantedPlaces(norm: Norm, tabs: seq<RestoreTab>) returns (places: seq<nat>)
    ensures Picks(tabs, Wanted(norm, tabs), places) && UsablePlaces(norm, tabs, places)
  {
    places := [];
    if tabs != [] {
      var n := |tabs| - 1;
      var before := WantedPlaces(norm, tabs[..n]);
      WantedLast(norm, tabs, n);
      PicksMore(tabs, n, Wanted(norm, tabs[..n]), before);
      UsableMore(norm, tabs, n, before);
      places := if norm(tabs[n].url) != "" then before + [n] else before;
    }
  }

  lemma WantedLast(norm: Norm, tabs: seq<RestoreTab>, n: nat)
    requires |tabs| == n + 1
    ensures Wanted(norm, tabs)
            == if norm(tabs[n].url) != "" then Wanted(norm, tabs[..n]) + [tabs[n]] else Wanted(norm, tabs[..n])
  {
  }

  ghost predicate HasUsable(norm: Norm, tabs: seq<RestoreTab>) { exists t :: t in tabs && norm(t.url) != "" }

  lemma WantedAny(norm: Norm, tabs: seq<RestoreTab>)
    ensures Wanted(norm, tabs) != [] <==> HasUsable(norm, tabs)
  {
    var places := WantedPlaces(norm, tabs);
    if t :| t in tabs && norm(t.url) != "" {
      var i :| 0 <= i < |tabs| && tabs[i] == t;
      assert i in places;
    }
    if Wanted(norm, tabs) != [] { assert Wanted(norm, tabs)[0] in Wanted(norm, tabs); }
  }

  /** As often as stored. */
  lemma {:induction false} WantedTimes(norm: Norm, tabs: seq<RestoreTab>, t: RestoreTab)
    ensures multiset(Wanted(norm, tabs))[t] == if norm(t.url) != "" then multiset(tabs)[t] else 0
  {
    if tabs != [] {
      var n := |tabs| - 1;
      WantedTimes(norm, tabs[..n], t);
      assert tabs[..n] + [tabs[n]] == tabs;
    }
  }

  lemma {:induction false} WantedCounts(norm: Norm, tabs: seq<RestoreTab>, key: string)
    ensures |Wanted(norm, tabs)| == CountUsable(norm, tabs)
    ensures key != "" ==> CountTabs(norm, Wanted(norm, tabs), key) == CountTabs(norm, tabs, key)
  {
    if tabs != [] {
      var n := |tabs| - 1;
      WantedCounts(norm, tabs[..n], key);
      CountTabsSnoc(norm, Wanted(norm, tabs[..n]), tabs[n], key);
    }
  }

  /** How many stored tabs have a usable key that is open in the window. */
  function Alike(norm: Norm, tabs: seq<RestoreTab>, open: seq<OpenTab>, ref: string): nat {
    if tabs == [] then 0
    else
      var key := norm(tabs[|tabs|-1].url);
      Alike(norm, tabs[..|tabs|-1], open, ref) + (if key != "" && CountOpen(norm, open, ref, key) > 0 then 1 else 0)
  }

  lemma {:induction false} SharedIsAlike(norm: Norm, tabs: seq<RestoreTab>, open: seq<OpenTab>, ref: string)
    ensures SharedIn(norm, Wanted(norm, tabs), Index(norm, open), ref) == Alike(norm, tabs, open, ref)
  {
    if tabs != [] {
      var n := |tabs| - 1;
      var rest, key := Wanted(norm, tabs[..n]), norm(tabs[n].url);
      SharedIsAlike(norm, tabs[..n], open, ref);
      if key != "" {
        IndexCounts(norm, open, ref, key);
        assert (rest + [tabs[n]])[..|rest|] == rest;
      }
    }
  }

  // ----- Carrying the plan out -----

  function TabsOpen(tabs: seq<RestoreTab>, ref: string): (r: seq<OpenTab>)
    ensures |r| == |tabs|
    ensures forall t :: t in r ==> t.windowRef == ref
  {
    if tabs == [] then [] else TabsOpen(tabs[..|tabs|-1], ref) + [OpenTab(ref, tabs[|tabs|-1].url)]
  }

  function Added(additions: seq<PlannedTab>): seq<OpenTab> {
    if additions == [] then []
    else
      var p := additions[|additions|-1];
      Added(additions[..|additions|-1]) + [OpenTab(p.target, p.tab.url)]
  }

  function Opened(newWindows: seq<NewWindow>, names: seq<string>): (r: seq<OpenTab>)
    requires |newWindows| <= |names|
    ensures forall t :: t in r ==> t.windowRef in names[..|newWindows|]
  {
    if newWindows == [] then []
    else
      var n := |newWindows| - 1;
      assert names[n] in names[..|newWindows|];
      Opened(newWindows[..n], names) + TabsOpen(newWindows[n].tabs, names[n])
  }

  /** The browser after the plan ran: additions in place, new windows last, nothing closed. */
  function Execute(open: seq<OpenTab>, plan: RestorePlan, names: seq<string>): (r: seq<OpenTab>)
    requires |plan.newWindows| <= |names|
  {
    open + Added(plan.additions) + Opened(plan.newWindows, names)
  }

  /** The browser gives each new window a reference of its own. */
  ghost predicate NewNames(open: seq<OpenTab>, names: seq<string>) {
    && (forall i, j :: 0 <= i < j < |names| ==> names[i] != names[j])
    && (forall t :: t in open ==> t.windowRef !in names)
  }

  // ----- Best match: an independent characterisation -----

  /** `ref` is the first of the unclaimed windows that share most with the stored one. */
  ghost predicate IsBest(norm: Norm, wanted: seq<RestoreTab>, idx: OpenIndex, claimed: set<string>, p: nat) {
    && p < |idx.refs|
    && idx.refs[p] !in claimed
    && SharedIn(norm, wanted, idx, idx.refs[p]) > 0
    && (forall q | 0 <= q < |idx.refs| && idx.refs[q] !in claimed ::
         && SharedIn(norm, wanted, idx, idx.refs[q]) <= SharedIn(norm, wanted, idx, idx.refs[p])
         && (q < p ==> SharedIn(norm, wanted, idx, idx.refs[q]) < SharedIn(norm, wanted, idx, idx.refs[p])))
  }

  /** `refs[p]` scores `score`, and every unclaimed window before it scores less. */
  ghost predicate Leads(norm: Norm, wanted: seq<RestoreTab>, idx: OpenIndex, refs: seq<string>, claimed: set<string>,
                        p: nat, score: nat) {
    && p < |refs| && refs[p] !in claimed && SharedIn(norm, wanted, idx, refs[p]) == score
    && forall q | 0 <= q < p && refs[q] !in claimed :: SharedIn(norm, wanted, idx, refs[q]) < score
  }

  lemma {:induction false} BestSoFarIs(norm: Norm, wanted: seq<RestoreTab>, idx: OpenIndex, refs: seq<string>,
                                       claimed: set<string>)
    returns (p: nat)
    ensures var best := BestSoFar(norm, wanted, idx, refs, claimed);
      && (best.0.None? ==> best.1 == 0)
      && (forall q | 0 <= q < |refs| && refs[q] !in claimed :: SharedIn(norm, wanted, idx, refs[q]) <= best.1)
      && (best.0.Some? ==> best.1 > 0 && Leads(norm, wanted, idx, refs, claimed, p, best.1) && refs[p] == best.0.value)
  {
    p := 0;
    if refs != [] {
      var n := |refs| - 1;
      p := BestSoFarIs(norm, wanted, idx, refs[..n], claimed);
      var best := BestSoFar(norm, wanted, idx, refs, claimed);
      assert forall q | 0 <= q < n :: refs[..n][q] == refs[q];
      if refs[n] !in claimed && best.0.Some? && best == (Some(refs[n]), SharedIn(norm, wanted, idx, refs[n]))
         && best != BestSoFar(norm, wanted, idx, refs[..n], claimed) {
        p := n;
      }
    }
  }

  lemma BestIsFound(norm: Norm, wanted: seq<RestoreTab>, idx: OpenIndex, claimed: set<string>, p: nat)
    requires IsBest(norm, wanted, idx, claimed, p)
    ensures BestSoFar(norm, wanted, idx, idx.refs, claimed)
            == (Some(idx.refs[p]), SharedIn(norm, wanted, idx, idx.refs[p]))
  {
    var p' := BestSoFarIs(norm, wanted, idx, idx.refs, claimed);
    assert p' == p;
  }

  /** bestMatch returns a window exactly when it is the best one and clears the threshold. */
  lemma BestMatchExactly(norm: Norm, wanted: seq<RestoreTab>, idx: OpenIndex, claimed: set<string>, ref: string)
    requires wanted != []
    ensures BestMatch(norm, wanted, idx, claimed) == Some(ref) <==>
            exists p: nat :: IsBest(norm, wanted, idx, claimed, p) && idx.refs[p] == ref
                             && 10 * SharedIn(norm, wanted, idx, ref) >= 3 * |wanted|
    ensures BestMatch(norm, wanted, idx, claimed) == None <==>
            forall q :: q in idx.refs && q !in claimed ==> 10 * SharedIn(norm, wanted, idx, q) < 3 * |wanted|
  {
    var best := BestSoFar(norm, wanted, idx, idx.refs, claimed);
    var p := BestSoFarIs(norm, wanted, idx, idx.refs, claimed);
    if best.0.Some? {
      assert IsBest(norm, wanted, idx, claimed, p);
      assert best.0.value in idx.refs;
    }
    forall p': nat | IsBest(norm, wanted, idx, claimed, p')
      ensures best == (Some(idx.refs[p']), SharedIn(norm, wanted, idx, idx.refs[p']))
    {
      BestIsFound(norm, wanted, idx, claimed, p');
    }
  }

  // ----- Claims -----

  lemma {:induction false} PlanPrefix(norm: Norm, desired: seq<RestoreWindow>, idx: OpenIndex, m: nat)
    requires m <= |desired|
    ensures Plan(norm, desired[..m], idx).claims == Plan(norm, desired, idx).claims[..m]
    ensures Plan(norm, desired[..m], idx).plan.newWindows <= Plan(norm, desired, idx).plan.newWindows
  {
    if m == |desired| {
      assert desired[..m] == desired;
    } else {
      var n := |desired| - 1;
      assert desired[..n][..m] == desired[..m];
      PlanPrefix(norm, desired[..n], idx, m);
    }
  }

  ghost function WantedOf(norm: Norm, desired: seq<RestoreWindow>, i: nat): seq<RestoreTab>
    requires i < |desired|
  {
    Wanted(norm, desired[i].tabs)
  }

  ghost function ClaimedBefore(norm: Norm, desired: seq<RestoreWindow>, idx: OpenIndex, i: nat): set<string>
    requires i <= |desired|
  {
    ClaimSet(Plan(norm, desired[..i], idx).claims)
  }

  /** The claim of window i is made against the claims of the windows before it. */
  lemma ClaimAt(norm: Norm, desired: seq<RestoreWindow>, idx: OpenIndex, i: nat)
    requires i < |desired|
    ensures Plan(norm, desired, idx).claims[i] == ClaimFor(norm, desired[i], idx, ClaimedBefore(norm, desired, idx, i))
    ensures forall j | 0 <= j < i && Plan(norm, desired, idx).claims[j].Some? ::
              Plan(norm, desired, idx).claims[j].value in ClaimedBefore(norm, desired, idx, i)
  {
    PlanPrefix(norm, desired, idx, i + 1);
    PlanPrefix(norm, desired, idx, i);
    assert desired[..i+1][..i] == desired[..i];
    var claims := Plan(norm, desired, idx).claims;
    forall j | 0 <= j < i && claims[j].Some?
      ensures claims[j].value in ClaimSet(claims[..i])
    {
      assert claims[..i][j] in claims[..i];
    }
  }

  lemma ClaimIsBest(norm: Norm, desired: seq<RestoreWindow>, idx: OpenIndex, i: nat)
    requires i < |desired| && WantedOf(norm, desired, i) != []
    ensures var wanted := WantedOf(norm, desired, i);
      var claimed := ClaimedBefore(norm, desired, idx, i);
      match Plan(norm, desired, idx).claims[i]
      case Some(ref) => exists p: nat :: IsBest(norm, wanted, idx, claimed, p) && idx.refs[p] == ref
                                         && 10 * SharedIn(norm, wanted, idx, ref) >= 3 * |wanted|
      case None => forall q :: q in idx.refs && q !in claimed ==> 10 * SharedIn(norm, wanted, idx, q) < 3 * |wanted|
  {
    ClaimAt(norm, desired, idx, i);
    var claim := Plan(norm, desired, idx).claims[i];
    BestMatchExactly(norm, WantedOf(norm, desired, i), idx, ClaimedBefore(norm, desired, idx, i),
                     if claim.Some? then claim.value else "");
  }

  /** A window comes before another if its first tab with a usable key does. */
  ghost predicate FirstSeen(norm: Norm, open: seq<OpenTab>, ref: string, n: nat) {
    && n < |open| && open[n].windowRef == ref && norm(open[n].url) != ""
    && forall m :: 0 <= m < n ==> open[m].windowRef != ref || norm(open[m].url) == ""
  }

  ghost predicate SeenInOrder(norm: Norm, open: seq<OpenTab>, refs: seq<string>, seen: seq<nat>) {
    && |seen| == |refs|
    && (forall p :: 0 <= p < |refs| ==> FirstSeen(norm, open, refs[p], seen[p]))
    && (forall p, q :: 0 <= p < q < |seen| ==> seen[p] < seen[q])
  }

  lemma {:induction false} RefsInOrder(norm: Norm, open: seq<OpenTab>) returns (seen: seq<nat>)
    ensures SeenInOrder(norm, open, Index(norm, open).refs, seen)
  {
    seen := [];
    if open != [] {
      var n := |open| - 1;
      seen := RefsInOrder(norm, open[..n]);
      var before, t := Index(norm, open[..n]), open[n];
      assert open[..n] + [t] == open;
      SeenLater(norm, open[..n], t, before.refs, seen);
      if norm(t.url) != "" && t.windowRef !in before.counts {
        SeenNow(norm, open[..n], t);
        SeenMore(norm, open, before.refs, seen, t.windowRef, n);
        seen := seen + [n];
      }
    }
  }

  lemma SeenLater(norm: Norm, open: seq<OpenTab>, t: OpenTab, refs: seq<string>, seen: seq<nat>)
    requires SeenInOrder(norm, open, refs, seen)
    ensures SeenInOrder(norm, open + [t], refs, seen)
    ensures forall p :: 0 <= p < |seen| ==> seen[p] < |open|
  {
    forall p | 0 <= p < |refs| ensures FirstSeen(norm, open + [t], refs[p], seen[p]) && seen[p] < |open| {
      assert FirstSeen(norm, open, refs[p], seen[p]);
    }
  }

  lemma SeenNow(norm: Norm, open: seq<OpenTab>, t: OpenTab)
    requires norm(t.url) != "" && t.windowRef !in Index(norm, open).counts
    ensures FirstSeen(norm, open + [t], t.windowRef, |open|)
  {
    forall m | 0 <= m < |open| ensures open[m].windowRef != t.windowRef || norm(open[m].url) == "" {
      if norm(open[m].url) != "" { SeenIsListed(norm, open, m); }
    }
  }

  lemma SeenMore(norm: Norm, open: seq<OpenTab>, refs: seq<string>, seen: seq<nat>, ref: string, n: nat)
    requires SeenInOrder(norm, open, refs, seen) && FirstSeen(norm, open, ref, n)
    requires forall p :: 0 <= p < |seen| ==> seen[p] < n
    ensures SeenInOrder(norm, open, refs + [ref], seen + [n])
  {
  }

  lemma {:induction false} SeenIsListed(norm: Norm, open: seq<OpenTab>, m: nat)
    requires m < |open| && norm(open[m].url) != ""
    ensures open[m].windowRef in Index(norm, open).counts
  {
    if m < |open| - 1 { SeenIsListed(norm, open[..|open|-1], m); }
  }

  /** No stored window before the i-th claims it. */
  predicate Free(claims: seq<Option<string>>, i: nat, ref: string)
    requires i <= |claims|
  {
    Some(ref) !in claims[..i]
  }

  lemma FreeIs(norm: Norm, desired: seq<RestoreWindow>, idx: OpenIndex, i: nat, ref: string)
    requires i <= |desired|
    ensures Free(Plan(norm, desired, idx).claims, i, ref) <==> ref !in ClaimedBefore(norm, desired, idx, i)
  {
    PlanPrefix(norm, desired, idx, i);
  }

  lemma NotListed(norm: Norm, open: seq<OpenTab>, tabs: seq<RestoreTab>, ref: string)
    requires ref !in Index(norm, open).refs
    ensures Alike(norm, tabs, open, ref) == 0
  {
    SharedIsAlike(norm, tabs, open, ref);
  }

  /** `ref` shows more of the stored tabs than `q`, or as many and was seen first. */
  ghost predicate Beats(norm: Norm, tabs: seq<RestoreTab>, open: seq<OpenTab>, ref: string, q: string) {
    || Alike(norm, tabs, open, q) < Alike(norm, tabs, open, ref)
    || (Alike(norm, tabs, open, q) == Alike(norm, tabs, open, ref)
        && exists m, n :: m < n && FirstSeen(norm, open, ref, m) && FirstSeen(norm, open, q, n))
  }

  /**
   A stored window with usable tabs claims the free open window that beats every other one, if
   three in ten of those tabs are open there; and it claims none if no free one shows as many.
   */
  lemma ClaimsAreBest(norm: Norm, desired: seq<RestoreWindow>, open: seq<OpenTab>, i: nat, q: string)
    requires i < |desired| && HasUsable(norm, desired[i].tabs)
    requires Free(Plan(norm, desired, Index(norm, open)).claims, i, q)
    ensures var tabs, claims := desired[i].tabs, Plan(norm, desired, Index(norm, open)).claims;
      match claims[i]
      case Some(ref) =>
        && Free(claims, i, ref) && (q != ref ==> Beats(norm, tabs, open, ref, q))
        && Alike(norm, tabs, open, ref) > 0 && 10 * Alike(norm, tabs, open, ref) >= 3 * CountUsable(norm, tabs)
      case None => 10 * Alike(norm, tabs, open, q) < 3 * CountUsable(norm, tabs)
  {
    var idx, tabs := Index(norm, open), desired[i].tabs;
    var claim := Plan(norm, desired, idx).claims[i];
    WantedAny(norm, tabs);
    WantedCounts(norm, tabs, "");
    ClaimIsBest(norm, desired, idx, i);
    FreeIs(norm, desired, idx, i, q);
    SharedIsAlike(norm, tabs, open, q);
    if q !in idx.refs { NotListed(norm, open, tabs, q); }
    if claim.Some? {
      SharedIsAlike(norm, tabs, open, claim.value);
      FreeIs(norm, desired, idx, i, claim.value);
      if q != claim.value { BestBeats(norm, tabs, open, ClaimedBefore(norm, desired, idx, i), claim.value, q); }
    }
  }

  lemma BestBeats(norm: Norm, tabs: seq<RestoreTab>, open: seq<OpenTab>, claimed: set<string>, ref: string, q: string)
    requires var idx := Index(norm, open);
      exists p: nat :: IsBest(norm, Wanted(norm, tabs), idx, claimed, p) && idx.refs[p] == ref
    requires q !in claimed && q != ref
    ensures Beats(norm, tabs, open, ref, q)
  {
    var idx := Index(norm, open);
    var p: nat :| IsBest(norm, Wanted(norm, tabs), idx, claimed, p) && idx.refs[p] == ref;
    SharedIsAlike(norm, tabs, open, ref);
    SharedIsAlike(norm, tabs, open, q);
    if q in idx.refs {
      var n: nat :| n < |idx.refs| && idx.refs[n] == q;
      assert Alike(norm, tabs, open, q) <= Alike(norm, tabs, open, ref);
      assert n < p ==> Alike(norm, tabs, open, q) < Alike(norm, tabs, open, ref);
      SeenBefore(norm, open, p, n);
    } else {
      NotListed(norm, open, tabs, q);
    }
  }

  lemma SeenBefore(norm: Norm, open: seq<OpenTab>, p: nat, q: nat)
    requires p < |Index(norm, open).refs| && q < |Index(norm, open).refs|
    ensures var refs := Index(norm, open).refs;
      p < q ==> exists m, n :: m < n && FirstSeen(norm, open, refs[p], m) && FirstSeen(norm, open, refs[q], n)
  {
    var refs := Index(norm, open).refs;
    var seen := RefsInOrder(norm, open);
    assert FirstSeen(norm, open, refs[p], seen[p]) && FirstSeen(norm, open, refs[q], seen[q]);
  }

  /** No two stored windows map onto the same open window. */
  lemma ClaimsDistinct(norm: Norm, desired: seq<RestoreWindow>, idx: OpenIndex, i: nat, j: nat)
    requires i < j < |desired|
    requires Plan(norm, desired, idx).claims[i].Some?
    ensures Plan(norm, desired, idx).claims[i] != Plan(norm, desired, idx).claims[j]
  {
    ClaimAt(norm, desired, idx, j);
    var wanted := WantedOf(norm, desired, j);
    BestMatchUnclaimed(norm, wanted, idx, idx.refs, ClaimedBefore(norm, desired, idx, j));
  }

  // ----- Conservation -----

  function AllWanted(norm: Norm, desired: seq<RestoreWindow>): seq<RestoreTab> {
    if desired == [] then []
    else AllWanted(norm, desired[..|desired|-1]) + Wanted(norm, desired[|desired|-1].tabs)
  }

  function NewTabs(newWindows: seq<NewWindow>): seq<RestoreTab> {
    if newWindows == [] then []
    else NewTabs(newWindows[..|newWindows|-1]) + newWindows[|newWindows|-1].tabs
  }

  function AddedTabs(additions: seq<PlannedTab>): (r: seq<RestoreTab>)
    ensures |r| == |additions|
  {
    if additions == [] then [] else AddedTabs(additions[..|additions|-1]) + [additions[|additions|-1].tab]
  }

  /** The wanted tabs an open occurrence was consumed for: the complement of `Missing`. */
  function Kept(norm: Norm, wanted: seq<RestoreTab>, present: Counts): seq<RestoreTab> {
    if wanted == [] then []
    else
      var rest := Kept(norm, wanted[..|wanted|-1], present);
      var tab := wanted[|wanted|-1];
      if Have(Consume(norm, wanted[..|wanted|-1], present), norm(tab.url)) > 0 then rest + [tab] else rest
  }

  function AllKept(norm: Norm, desired: seq<RestoreWindow>, idx: OpenIndex): seq<RestoreTab> {
    if desired == [] then []
    else
      var n := |desired| - 1;
      var claim := ClaimFor(norm, desired[n], idx, ClaimSet(Plan(norm, desired[..n], idx).claims));
      AllKept(norm, desired[..n], idx) +
      (if claim.Some? && claim.value in idx.counts
       then Kept(norm, Wanted(norm, desired[n].tabs), idx.counts[claim.value])
       else [])
  }

  lemma KeptSnoc(norm: Norm, wanted: seq<RestoreTab>, tab: RestoreTab, present: Counts)
    ensures var kept, missing := Kept(norm, wanted, present), Missing(norm, wanted, present);
      if Have(Consume(norm, wanted, present), norm(tab.url)) > 0
      then Kept(norm, wanted + [tab], present) == kept + [tab] && Missing(norm, wanted + [tab], present) == missing
      else Kept(norm, wanted + [tab], present) == kept && Missing(norm, wanted + [tab], present) == missing + [tab]
  {
    assert (wanted + [tab])[..|wanted|] == wanted;
  }

  lemma SumSnoc<T>(a: seq<T>, b: seq<T>, c: seq<T>, x: T)
    requires multiset(a) + multiset(b) == multiset(c)
    ensures multiset(a + [x]) + multiset(b) == multiset(c + [x])
    ensures multiset(a) + multiset(b + [x]) == multiset(c + [x])
  {
  }

  lemma {:induction false} KeptOrMissing(norm: Norm, wanted: seq<RestoreTab>, present: Counts)
    ensures multiset(Kept(norm, wanted, present)) + multiset(Missing(norm, wanted, present)) == multiset(wanted)
    ensures |Kept(norm, wanted, present)| + |Missing(norm, wanted, present)| == |wanted|
  {
    if wanted != [] {
      var n := |wanted| - 1;
      var init, tab := wanted[..n], wanted[n];
      KeptOrMissing(norm, init, present);
      KeptSnoc(norm, init, tab, present);
      SumSnoc(Kept(norm, init, present), Missing(norm, init, present), init, tab);
      assert init + [tab] == wanted;
    }
  }

  lemma AddedTabsSnoc(a: seq<PlannedTab>, p: PlannedTab)
    ensures AddedTabs(a + [p]) == AddedTabs(a) + [p.tab]
  {
    assert (a + [p])[..|a|] == a;
  }

  lemma TargetSnoc(a: seq<PlannedTab>, tabs: seq<RestoreTab>, tab: RestoreTab, ref: string)
    ensures a + Target(tabs + [tab], ref) == a + Target(tabs, ref) + [PlannedTab(tab, ref)]
  {
    assert (tabs + [tab])[..|tabs|] == tabs;
  }

  lemma {:induction false} AddedTabsConcat(a: seq<PlannedTab>, tabs: seq<RestoreTab>, ref: string)
    ensures AddedTabs(a + Target(tabs, ref)) == AddedTabs(a) + tabs
  {
    if tabs == [] {
      assert a + Target(tabs, ref) == a;
    } else {
      var n := |tabs| - 1;
      AddedTabsConcat(a, tabs[..n], ref);
      TargetSnoc(a, tabs[..n], tabs[n], ref);
      AddedTabsSnoc(a + Target(tabs[..n], ref), PlannedTab(tabs[n], ref));
      assert tabs == tabs[..n] + [tabs[n]];
      assert AddedTabs(a) + tabs == AddedTabs(a) + tabs[..n] + [tabs[n]];
    }
  }

  lemma {:induction false} PartsAddUp(norm: Norm, desired: seq<RestoreWindow>, idx: OpenIndex)
    requires idx.Valid()
    ensures var plan := Plan(norm, desired, idx).plan;
      && multiset(AllWanted(norm, desired))
         == multiset(NewTabs(plan.newWindows)) + multiset(AddedTabs(plan.additions))
            + multiset(AllKept(norm, desired, idx))
      && plan.alreadyOpen == |AllKept(norm, desired, idx)|
  {
    if desired != [] {
      var n := |desired| - 1;
      PartsAddUp(norm, desired[..n], idx);
      var before := Plan(norm, desired[..n], idx);
      var claim := ClaimFor(norm, desired[n], idx, ClaimSet(before.claims));
      ExtendConserves(norm, before.plan, desired[n], idx, claim);
      var wanted := Wanted(norm, desired[n].tabs);
      var kept := if claim.Some? then Kept(norm, wanted, idx.counts[claim.value]) else [];
      var after := Extend(norm, before.plan, desired[n], idx, claim);
      SumParts(AllWanted(norm, desired[..n]), wanted, NewTabs(before.plan.newWindows), AddedTabs(before.plan.additions),
               AllKept(norm, desired[..n], idx), NewTabs(after.newWindows), AddedTabs(after.additions), kept);
      assert Plan(norm, desired, idx).plan == after;
      assert AllKept(norm, desired, idx) == AllKept(norm, desired[..n], idx) + kept;
      assert AllWanted(norm, desired) == AllWanted(norm, desired[..n]) + wanted;
    }
  }

  lemma SumParts<T>(all: seq<T>, more: seq<T>, a: seq<T>, b: seq<T>, c: seq<T>, a': seq<T>, b': seq<T>, c': seq<T>)
    requires multiset(all) == multiset(a) + multiset(b) + multiset(c)
    requires multiset(a') + multiset(b') + multiset(c') == multiset(a) + multiset(b) + multiset(more)
    ensures multiset(all + more) == multiset(a') + multiset(b') + multiset(c + c')
  {
    assert multiset(all + more) == multiset(all) + multiset(more);
    assert multiset(c + c') == multiset(c) + multiset(c');
    assert multiset(a) + multiset(b) + multiset(c) + multiset(more)
           == multiset(a) + multiset(b) + multiset(more) + multiset(c);
    assert multiset(a') + multiset(b') + multiset(c') + multiset(c)
           == multiset(a') + multiset(b') + (multiset(c) + multiset(c'));
  }

  /** What one stored window adds to each part of the plan. */
  lemma ExtendConserves(norm: Norm, plan: RestorePlan, want: RestoreWindow, idx: OpenIndex, claim: Option<string>)
    requires claim.Some? ==> claim.value in idx.counts
    requires Wanted(norm, want.tabs) == [] ==> claim.None?
    ensures var wanted := Wanted(norm, want.tabs);
      var kept := if claim.Some? then Kept(norm, wanted, idx.counts[claim.value]) else [];
      var after := Extend(norm, plan, want, idx, claim);
      && multiset(NewTabs(after.newWindows)) + multiset(AddedTabs(after.additions)) + multiset(kept)
         == multiset(NewTabs(plan.newWindows)) + multiset(AddedTabs(plan.additions)) + multiset(wanted)
      && after.alreadyOpen == plan.alreadyOpen + |kept|
  {
    var wanted := Wanted(norm, want.tabs);
    if wanted == [] {
    } else if claim.None? {
      assert (plan.newWindows + [NewWindow(want, wanted)])[..|plan.newWindows|] == plan.newWindows;
    } else {
      KeptOrMissing(norm, wanted, idx.counts[claim.value]);
      AddedTabsConcat(plan.additions, Missing(norm, wanted, idx.counts[claim.value]), claim.value);
    }
  }

  function AllTabs(desired: seq<RestoreWindow>): seq<RestoreTab> {
    if desired == [] then [] else AllTabs(desired[..|desired|-1]) + desired[|desired|-1].tabs
  }

  lemma {:induction false} WantedConcat(norm: Norm, a: seq<RestoreTab>, b: seq<RestoreTab>)
    ensures Wanted(norm, a + b) == Wanted(norm, a) + Wanted(norm, b)
  {
    if b == [] {
      assert a + b == a;
    } else {
      var n := |b| - 1;
      WantedConcat(norm, a, b[..n]);
      LastOf(a, b);
      WantedSnoc(norm, a + b[..n], b[n]);
      Regroup(Wanted(norm, a), Wanted(norm, b[..n]), [b[n]]);
    }
  }

  lemma LastOf<T>(a: seq<T>, b: seq<T>)
    requires b != []
    ensures a + b == (a + b[..|b|-1]) + [b[|b|-1]]
  {
  }

  lemma Regroup<T>(a: seq<T>, b: seq<T>, c: seq<T>)
    ensures (a + b) + c == a + (b + c)
  {
  }

  lemma {:induction false} AllWantedIs(norm: Norm, desired: seq<RestoreWindow>)
    ensures AllWanted(norm, desired) == Wanted(norm, AllTabs(desired))
  {
    if desired != [] {
      var n := |desired| - 1;
      AllWantedIs(norm, desired[..n]);
      WantedConcat(norm, AllTabs(desired[..n]), desired[n].tabs);
    }
  }

  /**
   Every stored tab with a usable key, as often as it is stored, is in exactly one of the new
   windows, the additions and the tabs kept, and no other tab is; `alreadyOpen` counts the kept.
   */
  lemma Conservation(norm: Norm, desired: seq<RestoreWindow>, open: seq<OpenTab>) returns (kept: seq<RestoreTab>)
    ensures var plan := Plan(norm, desired, Index(norm, open)).plan;
      && plan.alreadyOpen == |kept|
      && forall t ::
           multiset(NewTabs(plan.newWindows))[t] + multiset(AddedTabs(plan.additions))[t] + multiset(kept)[t]
           == if norm(t.url) != "" then multiset(AllTabs(desired))[t] else 0
  {
    kept := AllKept(norm, desired, Index(norm, open));
    PartsAddUp(norm, desired, Index(norm, open));
    AllWantedIs(norm, desired);
    forall t ensures multiset(AllWanted(norm, desired))[t]
                     == if norm(t.url) != "" then multiset(AllTabs(desired))[t] else 0 {
      WantedTimes(norm, AllTabs(desired), t);
    }
  }

  // ----- Windows created whole -----

  /** The stored tabs with a usable key, in order. */
  ghost predicate UsableOf(norm: Norm, tabs: seq<RestoreTab>, r: seq<RestoreTab>) {
    exists places: seq<nat> :: Picks(tabs, r, places) && UsablePlaces(norm, tabs, places)
  }

  ghost predicate CreatedAs(norm: Norm, w: NewWindow, want: RestoreWindow) {
    w.source == want && UsableOf(norm, want.tabs, w.tabs)
  }

  /** The new windows are made of the stored ones at these places, in order. */
  ghost predicate CreatedFrom(norm: Norm, desired: seq<RestoreWindow>, newWindows: seq<NewWindow>, from: seq<nat>) {
    && |from| == |newWindows|
    && (forall m, n :: 0 <= m < n < |from| ==> from[m] < from[n])
    && forall n :: 0 <= n < |from| ==> from[n] < |desired| && CreatedAs(norm, newWindows[n], desired[from[n]])
  }

  /** These places are those of the stored windows that claim none and hold a usable tab. */
  ghost predicate Unclaimed(norm: Norm, desired: seq<RestoreWindow>, claims: seq<Option<string>>, from: seq<nat>)
    requires |claims| == |desired|
  {
    forall i :: 0 <= i < |desired| ==> (i in from <==> claims[i].None? && HasUsable(norm, desired[i].tabs))
  }

  /**
   Created are exactly the stored windows that claim none and hold a usable tab, in their order,
   each with all its usable tabs in theirs.
   */
  lemma {:induction false} NewWindowsExactly(norm: Norm, desired: seq<RestoreWindow>, idx: OpenIndex)
    returns (from: seq<nat>)
    ensures var p := Plan(norm, desired, idx);
      CreatedFrom(norm, desired, p.plan.newWindows, from) && Unclaimed(norm, desired, p.claims, from)
  {
    from := [];
    if desired != [] {
      var n := |desired| - 1;
      var before := NewWindowsExactly(norm, desired[..n], idx);
      NewWindowsStep(norm, desired, idx, n);
      var newWindows := Plan(norm, desired[..n], idx).plan.newWindows;
      from := FromNext(norm, desired, n, Plan(norm, desired, idx), newWindows, before);
    }
  }

  ghost predicate NewGrow(norm: Norm, want: RestoreWindow, before: seq<NewWindow>, claim: Option<string>,
                          after: seq<NewWindow>) {
    after == if claim.None? && Wanted(norm, want.tabs) != [] then before + [NewWindow(want, Wanted(norm, want.tabs))]
             else before
  }

  lemma NewWindowsStep(norm: Norm, desired: seq<RestoreWindow>, idx: OpenIndex, n: nat)
    requires |desired| == n + 1
    ensures var before, after := Plan(norm, desired[..n], idx), Plan(norm, desired, idx);
      && after.claims[..n] == before.claims
      && NewGrow(norm, desired[n], before.plan.newWindows, after.claims[n], after.plan.newWindows)
  {
  }

  lemma FromNext(norm: Norm, desired: seq<RestoreWindow>, n: nat, p: Progress, newWindows: seq<NewWindow>,
                 before: seq<nat>)
    returns (from: seq<nat>)
    requires |desired| == |p.claims| == n + 1 && CreatedFrom(norm, desired[..n], newWindows, before)
    requires Unclaimed(norm, desired[..n], p.claims[..n], before)
    requires NewGrow(norm, desired[n], newWindows, p.claims[n], p.plan.newWindows)
    ensures CreatedFrom(norm, desired, p.plan.newWindows, from) && Unclaimed(norm, desired, p.claims, from)
  {
    WantedAny(norm, desired[n].tabs);
    CreatedLater(norm, desired, n, newWindows, before);
    UnclaimedNext(norm, desired, n, p.claims, before);
    from := before;
    if p.claims[n].None? && Wanted(norm, desired[n].tabs) != [] {
      CreatedNext(norm, desired, n, newWindows, before);
      from := before + [n];
    }
  }

  lemma UnclaimedNext(norm: Norm, desired: seq<RestoreWindow>, n: nat, claims: seq<Option<string>>, from: seq<nat>)
    requires |desired| == |claims| == n + 1 && Unclaimed(norm, desired[..n], claims[..n], from) && n !in from
    ensures Unclaimed(norm, desired, claims,
                      if claims[n].None? && HasUsable(norm, desired[n].tabs) then from + [n] else from)
  {
    var to := if claims[n].None? && HasUsable(norm, desired[n].tabs) then from + [n] else from;
    forall i | 0 <= i < |desired| ensures i in to <==> claims[i].None? && HasUsable(norm, desired[i].tabs) {
      if i < n { assert desired[..n][i] == desired[i] && claims[..n][i] == claims[i]; }
    }
  }

  lemma CreatedLater(norm: Norm, desired: seq<RestoreWindow>, n: nat, newWindows: seq<NewWindow>, from: seq<nat>)
    requires n <= |desired| && CreatedFrom(norm, desired[..n], newWindows, from)
    ensures CreatedFrom(norm, desired, newWindows, from) && n !in from
  {
    forall m | 0 <= m < |from| ensures from[m] < |desired| && CreatedAs(norm, newWindows[m], desired[from[m]]) {
      assert desired[..n][from[m]] == desired[from[m]];
    }
  }

  lemma CreatedNext(norm: Norm, desired: seq<RestoreWindow>, n: nat, newWindows: seq<NewWindow>, from: seq<nat>)
    requires |desired| == n + 1 && CreatedFrom(norm, desired[..n], newWindows, from)
    ensures CreatedFrom(norm, desired, newWindows + [NewWindow(desired[n], Wanted(norm, desired[n].tabs))], from + [n])
  {
    var places := WantedPlaces(norm, desired[n].tabs);
    var made, to := newWindows + [NewWindow(desired[n], Wanted(norm, desired[n].tabs))], from + [n];
    forall m | 0 <= m < |to| ensures to[m] < |desired| && CreatedAs(norm, made[m], desired[to[m]]) {
      if m < |from| {
        assert to[m] == from[m] && made[m] == newWindows[m] && desired[..n][from[m]] == desired[from[m]];
      } else {
        assert UsableOf(norm, desired[n].tabs, Wanted(norm, desired[n].tabs));
      }
    }
  }

  // ----- Exact top-up -----

  function Less(a: nat, b: nat): nat { if a > b then a - b else 0 }

  lemma {:induction false} MissingCounts(norm: Norm, wanted: seq<RestoreTab>, present: Counts, key: string)
    ensures Have(Consume(norm, wanted, present), key) == Less(Have(present, key), CountTabs(norm, wanted, key))
    ensures CountTabs(norm, Missing(norm, wanted, present), key)
            == Less(CountTabs(norm, wanted, key), Have(present, key))
  {
    if wanted != [] {
      var n := |wanted| - 1;
      MissingCounts(norm, wanted[..n], present, key);
      var before := Missing(norm, wanted[..n], present);
      assert (before + [wanted[n]])[..|before|] == before;
    }
  }

  /** The key of the i-th tab comes before it as often as it is open. */
  predicate Surplus(norm: Norm, wanted: seq<RestoreTab>, present: Counts, i: nat)
    requires i < |wanted|
  {
    CountTabs(norm, wanted[..i], norm(wanted[i].url)) >= Have(present, norm(wanted[i].url))
  }

  ghost predicate SurplusPlaces(norm: Norm, wanted: seq<RestoreTab>, present: Counts, places: seq<nat>) {
    forall i :: 0 <= i < |wanted| ==> (i in places <==> Surplus(norm, wanted, present, i))
  }

  lemma SurplusMore(norm: Norm, wanted: seq<RestoreTab>, present: Counts, n: nat, places: seq<nat>)
    requires |wanted| == n + 1 && SurplusPlaces(norm, wanted[..n], present, places) && n !in places
    ensures SurplusPlaces(norm, wanted, present, if Surplus(norm, wanted, present, n) then places + [n] else places)
  {
    forall i | 0 <= i < n ensures i in places <==> Surplus(norm, wanted, present, i) {
      assert wanted[..n][i] == wanted[i] && wanted[..n][..i] == wanted[..i];
    }
  }

  lemma MissingLast(norm: Norm, wanted: seq<RestoreTab>, present: Counts, n: nat)
    requires |wanted| == n + 1
    ensures var init := Missing(norm, wanted[..n], present);
      Missing(norm, wanted, present) == if Surplus(norm, wanted, present, n) then init + [wanted[n]] else init
  {
    MissingCounts(norm, wanted[..n], present, norm(wanted[n].url));
  }

  /** Added to a claimed window are exactly such tabs, in order. */
  lemma {:induction false} MissingPlaces(norm: Norm, wanted: seq<RestoreTab>, present: Counts)
    returns (places: seq<nat>)
    ensures Picks(wanted, Missing(norm, wanted, present), places) && SurplusPlaces(norm, wanted, present, places)
  {
    places := [];
    if wanted != [] {
      var n := |wanted| - 1;
      var before := MissingPlaces(norm, wanted[..n], present);
      MissingLast(norm, wanted, present, n);
      PicksMore(wanted, n, Missing(norm, wanted[..n], present), before);
      SurplusMore(norm, wanted, present, n, before);
      places := if Surplus(norm, wanted, present, n) then before + [n] else before;
    }
  }

  lemma AddedSnoc(a: seq<PlannedTab>, p: PlannedTab)
    ensures Added(a + [p]) == Added(a) + [OpenTab(p.target, p.tab.url)]
  {
    assert (a + [p])[..|a|] == a;
  }

  lemma {:induction false} AddedTargets(a: seq<PlannedTab>, refs: seq<string>)
    requires forall p :: p in a ==> p.target in refs
    ensures forall t :: t in Added(a) ==> t.windowRef in refs
  {
    if a != [] {
      assert a[|a|-1] in a;
      AddedTargets(a[..|a|-1], refs);
    }
  }

  lemma {:induction false} AddedCounts(norm: Norm, a: seq<PlannedTab>, tabs: seq<RestoreTab>, target: string,
                                       ref: string, key: string)
    ensures CountOpen(norm, Added(a + Target(tabs, target)), ref, key)
            == CountOpen(norm, Added(a), ref, key) + (if ref == target then CountTabs(norm, tabs, key) else 0)
  {
    if tabs == [] {
      assert a + Target(tabs, target) == a;
    } else {
      var n := |tabs| - 1;
      AddedCounts(norm, a, tabs[..n], target, ref, key);
      var rest := a + Target(tabs[..n], target);
      assert a + Target(tabs, target) == rest + [PlannedTab(tabs[n], target)];
      AddedSnoc(rest, PlannedTab(tabs[n], target));
      CountOpenSnoc(norm, Added(rest), OpenTab(target, tabs[n].url), ref, key);
    }
  }

  lemma AdditionsGrow(norm: Norm, desired: seq<RestoreWindow>, idx: OpenIndex, ref: string, key: string)
    requires idx.Valid() && desired != []
    ensures var n := |desired| - 1;
      var p := Plan(norm, desired, idx);
      CountOpen(norm, Added(p.plan.additions), ref, key)
      == CountOpen(norm, Added(Plan(norm, desired[..n], idx).plan.additions), ref, key)
         + (if p.claims[n] == Some(ref)
            then CountTabs(norm, Missing(norm, WantedOf(norm, desired, n), idx.counts[ref]), key)
            else 0)
  {
    var n := |desired| - 1;
    var before := Plan(norm, desired[..n], idx);
    var claim := ClaimFor(norm, desired[n], idx, ClaimSet(before.claims));
    if claim.Some? {
      AddedCounts(norm, before.plan.additions, Missing(norm, WantedOf(norm, desired, n), idx.counts[claim.value]),
                  claim.value, ref, key);
    }
  }

  lemma {:induction false} NoAdditionsTo(norm: Norm, desired: seq<RestoreWindow>, idx: OpenIndex, ref: string,
                                         key: string)
    requires idx.Valid() && Some(ref) !in Plan(norm, desired, idx).claims
    ensures CountOpen(norm, Added(Plan(norm, desired, idx).plan.additions), ref, key) == 0
  {
    if desired != [] {
      var n := |desired| - 1;
      var claims := Plan(norm, desired, idx).claims;
      assert claims[n] in claims;
      assert claims == Plan(norm, desired[..n], idx).claims + [claims[n]];
      NoAdditionsTo(norm, desired[..n], idx, ref, key);
      AdditionsGrow(norm, desired, idx, ref, key);
    }
  }

  lemma ClaimIsListed(norm: Norm, desired: seq<RestoreWindow>, idx: OpenIndex, i: nat, ref: string)
    requires idx.Valid() && i < |desired| && Plan(norm, desired, idx).claims[i] == Some(ref)
    ensures ref in idx.counts
  {
    assert Plan(norm, desired, idx).claims[i] in Plan(norm, desired, idx).claims;
  }

  lemma EarlierClaim(norm: Norm, desired: seq<RestoreWindow>, idx: OpenIndex, n: nat, i: nat)
    requires |desired| == n + 1 && i < n
    ensures Plan(norm, desired[..n], idx).claims[i] == Plan(norm, desired, idx).claims[i]
    ensures desired[..n][i] == desired[i]
  {
  }

  /** The last stored window to claim is the only one to claim its window. */
  lemma NotClaimedBefore(norm: Norm, desired: seq<RestoreWindow>, idx: OpenIndex, n: nat, ref: string)
    requires |desired| == n + 1 && Plan(norm, desired, idx).claims[n] == Some(ref)
    ensures Some(ref) !in Plan(norm, desired[..n], idx).claims
  {
    var before := Plan(norm, desired[..n], idx).claims;
    if Some(ref) in before {
      var j: nat :| j < n && before[j] == Some(ref);
      EarlierClaim(norm, desired, idx, n, j);
      ClaimsDistinct(norm, desired, idx, j, n);
    }
  }

  /** What the additions to a claimed window come to. */
  ghost predicate AddsMissing(norm: Norm, desired: seq<RestoreWindow>, idx: OpenIndex, want: RestoreWindow, ref: string,
                              key: string)
    requires ref in idx.counts
  {
    CountOpen(norm, Added(Plan(norm, desired, idx).plan.additions), ref, key)
    == CountTabs(norm, Missing(norm, Wanted(norm, want.tabs), idx.counts[ref]), key)
  }

  lemma AddedBefore(norm: Norm, desired: seq<RestoreWindow>, idx: OpenIndex, n: nat, want: RestoreWindow, ref: string,
                    key: string)
    requires idx.Valid() && |desired| == n + 1 && Plan(norm, desired, idx).claims[n] != Some(ref)
    requires ref in idx.counts && AddsMissing(norm, desired[..n], idx, want, ref, key)
    ensures AddsMissing(norm, desired, idx, want, ref, key)
  {
    AdditionsGrow(norm, desired, idx, ref, key);
  }

  lemma AddedByLast(norm: Norm, desired: seq<RestoreWindow>, idx: OpenIndex, n: nat, ref: string, key: string)
    requires idx.Valid() && |desired| == n + 1 && Plan(norm, desired, idx).claims[n] == Some(ref) && ref in idx.counts
    ensures AddsMissing(norm, desired, idx, desired[n], ref, key)
  {
    NotClaimedBefore(norm, desired, idx, n, ref);
    NoAdditionsTo(norm, desired[..n], idx, ref, key);
    AdditionsGrow(norm, desired, idx, ref, key);
  }

  lemma {:induction false} AdditionsFor(norm: Norm, desired: seq<RestoreWindow>, idx: OpenIndex, i: nat, ref: string,
                                        key: string)
    requires idx.Valid() && i < |desired| && Plan(norm, desired, idx).claims[i] == Some(ref) && ref in idx.counts
    ensures AddsMissing(norm, desired, idx, desired[i], ref, key)
    decreases |desired|, 1
  {
    var n := |desired| - 1;
    if i == n {
      AddedByLast(norm, desired, idx, n, ref, key);
    } else {
      AddedEarlier(norm, desired, idx, n, i, ref, key);
    }
  }

  lemma {:induction false} AddedEarlier(norm: Norm, desired: seq<RestoreWindow>, idx: OpenIndex, n: nat, i: nat,
                                        ref: string, key: string)
    requires idx.Valid() && i < n && |desired| == n + 1 && Plan(norm, desired, idx).claims[i] == Some(ref)
    requires ref in idx.counts
    ensures AddsMissing(norm, desired, idx, desired[i], ref, key)
    decreases |desired|, 0
  {
    EarlierClaim(norm, desired, idx, n, i);
    ClaimsDistinct(norm, desired, idx, i, n);
    AdditionsFor(norm, desired[..n], idx, i, ref, key);
    AddedBefore(norm, desired, idx, n, desired[i], ref, key);
  }

  /** All additions to a window come from the one stored window that claimed it. */
  lemma AdditionsTo(norm: Norm, desired: seq<RestoreWindow>, idx: OpenIndex, i: nat, ref: string, key: string)
    requires idx.Valid() && i < |desired| && Plan(norm, desired, idx).claims[i] == Some(ref)
    ensures ref in idx.counts
    ensures CountOpen(norm, Added(Plan(norm, desired, idx).plan.additions), ref, key)
            == CountTabs(norm, Missing(norm, WantedOf(norm, desired, i), idx.counts[ref]), key)
  {
    ClaimIsListed(norm, desired, idx, i, ref);
    AdditionsFor(norm, desired, idx, i, ref, key);
  }

  lemma {:induction false} TabsOpenCounts(norm: Norm, tabs: seq<RestoreTab>, name: string, key: string)
    ensures CountOpen(norm, TabsOpen(tabs, name), name, key) == CountTabs(norm, tabs, key)
  {
    if tabs != [] {
      var n := |tabs| - 1;
      TabsOpenCounts(norm, tabs[..n], name, key);
      assert TabsOpen(tabs, name)[..n] == TabsOpen(tabs[..n], name);
    }
  }

  lemma {:induction false} OpenedCounts(norm: Norm, newWindows: seq<NewWindow>, names: seq<string>, j: nat, key: string)
    requires j < |newWindows| <= |names|
    requires forall i, k :: 0 <= i < k < |names| ==> names[i] != names[k]
    ensures CountOpen(norm, Opened(newWindows, names), names[j], key) == CountTabs(norm, newWindows[j].tabs, key)
  {
    var n := |newWindows| - 1;
    var before, last := Opened(newWindows[..n], names), TabsOpen(newWindows[n].tabs, names[n]);
    CountOpenConcat(norm, before, last, names[j], key);
    if j < n {
      OpenedCounts(norm, newWindows[..n], names, j, key);
      CountOpenZero(norm, last, names[j], key);
    } else {
      TabsOpenCounts(norm, newWindows[n].tabs, names[n], key);
      NotYetOpened(norm, newWindows[..n], names, n, key);
    }
  }

  lemma NotYetOpened(norm: Norm, newWindows: seq<NewWindow>, names: seq<string>, n: nat, key: string)
    requires |newWindows| <= n < |names| && forall i, k :: 0 <= i < k < |names| ==> names[i] != names[k]
    ensures CountOpen(norm, Opened(newWindows, names), names[n], key) == 0
  {
    CountOpenZero(norm, Opened(newWindows, names), names[n], key);
  }

  /** How often a key is open in a window once the plan ran. */
  lemma ExecuteCounts(norm: Norm, open: seq<OpenTab>, plan: RestorePlan, names: seq<string>, ref: string, key: string)
    requires |plan.newWindows| <= |names|
    ensures CountOpen(norm, Execute(open, plan, names), ref, key)
            == CountOpen(norm, open, ref, key) + CountOpen(norm, Added(plan.additions), ref, key)
               + CountOpen(norm, Opened(plan.newWindows, names), ref, key)
  {
    CountOpenConcat(norm, open + Added(plan.additions), Opened(plan.newWindows, names), ref, key);
    CountOpenConcat(norm, open, Added(plan.additions), ref, key);
  }

  function Max(a: nat, b: nat): nat { if a > b then a else b }

  lemma RefIsOpen(norm: Norm, open: seq<OpenTab>, ref: string)
    requires ref in Index(norm, open).refs
    ensures exists t :: t in open && t.windowRef == ref
  {
    if open != [] {
      var t := open[|open|-1];
      assert t in open;
      if ref in Index(norm, open[..|open|-1]).refs {
        RefIsOpen(norm, open[..|open|-1], ref);
      }
    }
  }

  /**
   After execution a claimed window holds, of every key, the larger of what was open and what
   was stored; an unclaimed one is as it was; and no open tab is lost.
   */
  lemma ExactTopUp(norm: Norm, desired: seq<RestoreWindow>, open: seq<OpenTab>, names: seq<string>, ref: string,
                   key: string)
    requires key != "" && NewNames(open, names)
    requires |Plan(norm, desired, Index(norm, open)).plan.newWindows| <= |names|
    requires ref !in names
    ensures var p := Plan(norm, desired, Index(norm, open));
      var after := Execute(open, p.plan, names);
      && open <= after
      && (forall i | 0 <= i < |desired| && p.claims[i] == Some(ref) ::
           CountOpen(norm, after, ref, key)
           == Max(CountOpen(norm, open, ref, key), CountTabs(norm, desired[i].tabs, key)))
      && (Some(ref) !in p.claims ==> CountOpen(norm, after, ref, key) == CountOpen(norm, open, ref, key))
  {
    var idx := Index(norm, open);
    var p := Plan(norm, desired, idx);
    ExecuteCounts(norm, open, p.plan, names, ref, key);
    CountOpenZero(norm, Opened(p.plan.newWindows, names), ref, key);
    IndexCounts(norm, open, ref, key);
    if Some(ref) !in p.claims { NoAdditionsTo(norm, desired, idx, ref, key); }
    forall i | 0 <= i < |desired| && p.claims[i] == Some(ref)
      ensures CountOpen(norm, Execute(open, p.plan, names), ref, key)
              == Max(CountOpen(norm, open, ref, key), CountTabs(norm, desired[i].tabs, key))
    {
      WantedCounts(norm, desired[i].tabs, key);
      AdditionsTo(norm, desired, idx, i, ref, key);
      MissingCounts(norm, WantedOf(norm, desired, i), idx.counts[ref], key);
    }
  }

  // ----- Planning again -----

  lemma {:induction false} IndexOverKnown(norm: Norm, open: seq<OpenTab>, more: seq<OpenTab>)
    requires forall t :: t in more ==> t.windowRef in Index(norm, open).refs
    ensures Index(norm, open + more).refs == Index(norm, open).refs
  {
    if more == [] {
      assert open + more == open;
    } else {
      var n := |more| - 1;
      assert open + more == (open + more[..n]) + [more[n]];
      IndexOverKnown(norm, open, more[..n]);
      IndexSnoc(norm, open + more[..n], more[n]);
      assert more[n] in more;
    }
  }

  ghost predicate Usable(norm: Norm, tabs: seq<RestoreTab>) {
    tabs != [] && forall t :: t in tabs ==> norm(t.url) != ""
  }

  lemma {:induction false} IndexOverWindow(norm: Norm, open: seq<OpenTab>, tabs: seq<RestoreTab>, name: string)
    requires Usable(norm, tabs)
    requires name !in Index(norm, open).refs
    ensures Index(norm, open + TabsOpen(tabs, name)).refs == Index(norm, open).refs + [name]
  {
    var n := |tabs| - 1;
    var before := open + TabsOpen(tabs[..n], name);
    assert open + TabsOpen(tabs, name) == before + [OpenTab(name, tabs[n].url)];
    IndexSnoc(norm, before, OpenTab(name, tabs[n].url));
    assert tabs[n] in tabs;
    if n == 0 {
      assert before == open;
    } else {
      IndexOverWindow(norm, open, tabs[..n], name);
    }
  }

  lemma {:induction false} IndexOverOpened(norm: Norm, open: seq<OpenTab>, newWindows: seq<NewWindow>,
                                           names: seq<string>)
    requires |newWindows| <= |names|
    requires forall w :: w in newWindows ==> Usable(norm, w.tabs)
    requires forall i, j :: 0 <= i < j < |names| ==> names[i] != names[j]
    requires forall i :: 0 <= i < |names| ==> names[i] !in Index(norm, open).refs
    decreases |newWindows|
    ensures Index(norm, open + Opened(newWindows, names)).refs == Index(norm, open).refs + names[..|newWindows|]
  {
    if newWindows == [] {
      assert open + Opened(newWindows, names) == open;
    } else {
      var n := |newWindows| - 1;
      assert newWindows[n] in newWindows;
      var before := open + Opened(newWindows[..n], names);
      var refs := Index(norm, open).refs;
      assert Index(norm, before).refs == refs + names[..n] by {
        IndexOverOpened(norm, open, newWindows[..n], names);
      }
      NotAmong(refs, names, n);
      OpenedSnoc(open, newWindows, names);
      NextWindow(norm, before, newWindows[n].tabs, names[n], refs + names[..n]);
      TakeOneMore(refs, names, n);
    }
  }

  lemma TakeOneMore(refs: seq<string>, names: seq<string>, n: nat)
    requires n < |names|
    ensures refs + names[..n] + [names[n]] == refs + names[..n+1]
  {
  }

  lemma NextWindow(norm: Norm, open: seq<OpenTab>, tabs: seq<RestoreTab>, name: string, refs: seq<string>)
    requires Usable(norm, tabs) && Index(norm, open).refs == refs && name !in refs
    ensures Index(norm, open + TabsOpen(tabs, name)).refs == refs + [name]
  {
    IndexOverWindow(norm, open, tabs, name);
  }

  lemma NotAmong(refs: seq<string>, names: seq<string>, n: nat)
    requires n < |names| && names[n] !in refs
    requires forall i, j :: 0 <= i < j < |names| ==> names[i] != names[j]
    ensures names[n] !in refs + names[..n]
  {
  }

  lemma OpenedSnoc(open: seq<OpenTab>, newWindows: seq<NewWindow>, names: seq<string>)
    requires 0 < |newWindows| <= |names|
    ensures var n := |newWindows| - 1;
      open + Opened(newWindows, names) == open + Opened(newWindows[..n], names) + TabsOpen(newWindows[n].tabs, names[n])
  {
    var n := |newWindows| - 1;
    Regroup(open, Opened(newWindows[..n], names), TabsOpen(newWindows[n].tabs, names[n]));
  }

  lemma {:induction false} NewWindowsUsable(norm: Norm, desired: seq<RestoreWindow>, idx: OpenIndex)
    ensures forall w :: w in Plan(norm, desired, idx).plan.newWindows ==> Usable(norm, w.tabs)
    ensures forall q :: q in Plan(norm, desired, idx).plan.additions ==> q.target in idx.refs
  {
    if desired != [] {
      var n := |desired| - 1;
      NewWindowsUsable(norm, desired[..n], idx);
      var before := Plan(norm, desired[..n], idx);
      var claim := ClaimFor(norm, desired[n], idx, ClaimSet(before.claims));
      var wanted := Wanted(norm, desired[n].tabs);
      if wanted != [] && claim.Some? {
        var missing := Missing(norm, wanted, if claim.value in idx.counts then idx.counts[claim.value] else map[]);
        TargetsAre(missing, claim.value);
      }
    }
  }

  lemma TargetsAre(tabs: seq<RestoreTab>, ref: string)
    ensures forall q :: q in Target(tabs, ref) ==> q.target == ref
  {
  }

  /** What is open after the plan ran, as planning sees it. */
  lemma ExecuteIndex(norm: Norm, desired: seq<RestoreWindow>, open: seq<OpenTab>, names: seq<string>)
    requires NewNames(open, names)
    requires |Plan(norm, desired, Index(norm, open)).plan.newWindows| <= |names|
    ensures var plan := Plan(norm, desired, Index(norm, open)).plan;
      Index(norm, Execute(open, plan, names)).refs == Index(norm, open).refs + names[..|plan.newWindows|]
  {
    var idx := Index(norm, open);
    var plan := Plan(norm, desired, idx).plan;
    NewWindowsUsable(norm, desired, idx);
    AddedTargets(plan.additions, idx.refs);
    IndexOverKnown(norm, open, Added(plan.additions));
    forall i | 0 <= i < |names| ensures names[i] !in idx.refs {
      if names[i] in idx.refs { RefIsOpen(norm, open, names[i]); }
    }
    IndexOverOpened(norm, open + Added(plan.additions), plan.newWindows, names);
  }
}
