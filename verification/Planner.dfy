/**
 Restore planning: what to create, given what is already open
 (extension/src/background/plan.ts).

 `Plan` is the specification: one stored window at a time, each claiming at most one open
 window. `PlanRestore` is the program, with its mutable count maps; it is proved to compute
 `Plan`. What the planner promises is proved about `Plan` in PlannerProofs.dfy.

 URL normalisation is a parameter, `norm`; the empty string marks an unusable URL.
 */
module Planner {
  import opened Options

  type Norm = string -> string
  type Counts = map<string, nat>

  datatype RestoreTab = RestoreTab(url: string, title: Option<string>, index: int, pinned: bool, active: bool)
  datatype RestoreWindow = RestoreWindow(windowId: string, isPrivate: bool, tabs: seq<RestoreTab>)
  datatype OpenTab = OpenTab(windowRef: string, url: string)

  datatype NewWindow = NewWindow(source: RestoreWindow, tabs: seq<RestoreTab>)
  datatype PlannedTab = PlannedTab(tab: RestoreTab, target: string)
  datatype RestorePlan = RestorePlan(newWindows: seq<NewWindow>, additions: seq<PlannedTab>, alreadyOpen: nat)

  const EMPTY_PLAN := RestorePlan([], [], 0)

  /** WINDOW_MATCH_THRESHOLD is 0.3; scores shared/len are compared by cross-multiplication. */
  const THRESHOLD_NUM := 3
  const THRESHOLD_DEN := 10

  // ----- What is open, counted per window -----

  /** The windows in order of first appearance, and how often each key is open in each. */
  datatype OpenIndex = OpenIndex(refs: seq<string>, counts: map<string, Counts>)
  {
    ghost predicate Valid() {
      && (forall r :: r in refs <==> r in counts)
      && (forall i, j :: 0 <= i < j < |refs| ==> refs[i] != refs[j])
    }
  }

  function Have(present: Counts, key: string): nat {
    if key in present then present[key] else 0
  }

  function HaveIn(idx: OpenIndex, ref: string, key: string): nat {
    if ref in idx.counts then Have(idx.counts[ref], key) else 0
  }

  function AddKey(idx: OpenIndex, ref: string, key: string): OpenIndex {
    var present := if ref in idx.counts then idx.counts[ref] else map[];
    OpenIndex(if ref in idx.counts then idx.refs else idx.refs + [ref],
              idx.counts[ref := present[key := Have(present, key) + 1]])
  }

  function AddOpen(norm: Norm, idx: OpenIndex, t: OpenTab): OpenIndex {
    var key := norm(t.url);
    if key == "" then idx else AddKey(idx, t.windowRef, key)
  }

  function Index(norm: Norm, open: seq<OpenTab>): (idx: OpenIndex)
    ensures idx.Valid()
  {
    if open == [] then OpenIndex([], map[])
    else AddOpen(norm, Index(norm, open[..|open|-1]), open[|open|-1])
  }

  // ----- One stored window -----

  function Wanted(norm: Norm, tabs: seq<RestoreTab>): (r: seq<RestoreTab>)
    ensures forall t :: t in r ==> t in tabs && norm(t.url) != ""
    ensures |r| <= |tabs|
  {
    if tabs == [] then []
    else
      var rest := Wanted(norm, tabs[..|tabs|-1]);
      if norm(tabs[|tabs|-1].url) != "" then rest + [tabs[|tabs|-1]] else rest
  }

  /** How many of the wanted tabs have their key open at all. */
  function Shared(norm: Norm, wanted: seq<RestoreTab>, present: Counts): (n: nat)
    ensures n <= |wanted|
  {
    if wanted == [] then 0
    else
      Shared(norm, wanted[..|wanted|-1], present) + (if Have(present, norm(wanted[|wanted|-1].url)) > 0 then 1 else 0)
  }

  function SharedIn(norm: Norm, wanted: seq<RestoreTab>, idx: OpenIndex, ref: string): (n: nat)
    ensures n <= |wanted|
  {
    if ref in idx.counts then Shared(norm, wanted, idx.counts[ref]) else 0
  }

  /** The first unclaimed window with the largest positive number of shared tabs. */
  function BestSoFar(norm: Norm, wanted: seq<RestoreTab>, idx: OpenIndex, refs: seq<string>, claimed: set<string>)
    : (best: (Option<string>, nat))
    ensures best.0.Some? ==> best.0.value in refs
  {
    if refs == [] then (None, 0)
    else
      var best := BestSoFar(norm, wanted, idx, refs[..|refs|-1], claimed);
      var ref := refs[|refs|-1];
      if ref in claimed then best
      else
        var shared := SharedIn(norm, wanted, idx, ref);
        if shared > best.1 then (Some(ref), shared) else best
  }

  function BestMatch(norm: Norm, wanted: seq<RestoreTab>, idx: OpenIndex, claimed: set<string>): (r: Option<string>)
    ensures r.Some? ==> r.value in idx.refs
  {
    var best := BestSoFar(norm, wanted, idx, idx.refs, claimed);
    if THRESHOLD_DEN * best.1 >= THRESHOLD_NUM * |wanted| then best.0 else None
  }

  /** What is left of `present` once the tabs have each consumed one occurrence of their key. */
  function Consume(norm: Norm, wanted: seq<RestoreTab>, present: Counts): Counts {
    if wanted == [] then present
    else
      var before := Consume(norm, wanted[..|wanted|-1], present);
      var key := norm(wanted[|wanted|-1].url);
      if Have(before, key) > 0 then before[key := before[key] - 1] else before
  }

  /** The wanted tabs no open occurrence was left for, in order. */
  function Missing(norm: Norm, wanted: seq<RestoreTab>, present: Counts): (r: seq<RestoreTab>)
    ensures |r| <= |wanted|
    ensures forall t :: t in r ==> t in wanted
  {
    if wanted == [] then []
    else
      var rest := Missing(norm, wanted[..|wanted|-1], present);
      var tab := wanted[|wanted|-1];
      if Have(Consume(norm, wanted[..|wanted|-1], present), norm(tab.url)) > 0 then rest else rest + [tab]
  }

  function Target(tabs: seq<RestoreTab>, ref: string): (r: seq<PlannedTab>)
    ensures |r| == |tabs|
  {
    if tabs == [] then [] else Target(tabs[..|tabs|-1], ref) + [PlannedTab(tabs[|tabs|-1], ref)]
  }

  // ----- The whole plan -----

  /** The plan so far and, per stored window, the open window it claimed. */
  datatype Progress = Progress(plan: RestorePlan, claims: seq<Option<string>>)

  function ClaimSet(claims: seq<Option<string>>): set<string> {
    set c | c in claims && c.Some? :: c.value
  }

  function ClaimFor(norm: Norm, want: RestoreWindow, idx: OpenIndex, claimed: set<string>): (r: Option<string>)
    ensures r.Some? ==> r.value in idx.refs
  {
    var wanted := Wanted(norm, want.tabs);
    if wanted == [] then None else BestMatch(norm, wanted, idx, claimed)
  }

  function Extend(norm: Norm, plan: RestorePlan, want: RestoreWindow, idx: OpenIndex,
                  claim: Option<string>): RestorePlan {
    var wanted := Wanted(norm, want.tabs);
    if wanted == [] then plan
    else match claim
      case None => plan.(newWindows := plan.newWindows + [NewWindow(want, wanted)])
      case Some(ref) =>
        var present := if ref in idx.counts then idx.counts[ref] else map[];
        var missing := Missing(norm, wanted, present);
        plan.(additions := plan.additions + Target(missing, ref),
              alreadyOpen := plan.alreadyOpen + (|wanted| - |missing|))
  }

  function Plan(norm: Norm, desired: seq<RestoreWindow>, idx: OpenIndex): (p: Progress)
    ensures |p.claims| == |desired|
    ensures forall c :: c in p.claims && c.Some? ==> c.value in idx.refs
  {
    if desired == [] then Progress(EMPTY_PLAN, [])
    else
      var before := Plan(norm, desired[..|desired|-1], idx);
      var want := desired[|desired|-1];
      var claim := ClaimFor(norm, want, idx, ClaimSet(before.claims));
      Progress(Extend(norm, before.plan, want, idx, claim), before.claims + [claim])
  }

  // ----- The program -----

  method CountKey(refs: seq<string>, openByWindow: map<string, Counts>, ref: string, key: string)
    returns (refs': seq<string>, openByWindow': map<string, Counts>)
    ensures OpenIndex(refs', openByWindow') == AddKey(OpenIndex(refs, openByWindow), ref, key)
  {
    refs', openByWindow' := refs, openByWindow;
    if ref !in openByWindow {
      refs' := refs + [ref];
      openByWindow' := openByWindow'[ref := map[]];
    }
    var counts := openByWindow'[ref];
    counts := counts[key := (if key in counts then counts[key] else 0) + 1];
    openByWindow' := openByWindow'[ref := counts];
    assert openByWindow' == openByWindow[ref := counts];
  }

  lemma IndexTake(norm: Norm, open: seq<OpenTab>, n: nat)
    requires n < |open|
    ensures Index(norm, open[..n+1]) == AddOpen(norm, Index(norm, open[..n]), open[n])
  {
    assert open[..n+1][..n] == open[..n];
  }

  method IndexOpen(norm: Norm, open: seq<OpenTab>) returns (refs: seq<string>, openByWindow: map<string, Counts>)
    ensures OpenIndex(refs, openByWindow) == Index(norm, open)
  {
    refs, openByWindow := [], map[];
    for n := 0 to |open|
      invariant OpenIndex(refs, openByWindow) == Index(norm, open[..n])
    {
      IndexTake(norm, open, n);
      var key := norm(open[n].url);
      if key == "" {
        continue;
      }
      refs, openByWindow := CountKey(refs, openByWindow, open[n].windowRef, key);
    }
    assert open[..|open|] == open;
  }

  /** `present` as `bestMatch` reads it differs from the index only in windows already claimed. */
  ghost predicate AgreesOutside(openByWindow: map<string, Counts>, idx: OpenIndex, claimed: set<string>) {
    && openByWindow.Keys == idx.counts.Keys
    && forall r :: r in idx.counts && r !in claimed ==> openByWindow[r] == idx.counts[r]
  }

  method CountShared(norm: Norm, wanted: seq<RestoreTab>, present: Counts) returns (shared: nat)
    ensures shared == Shared(norm, wanted, present)
  {
    shared := 0;
    for n := 0 to |wanted|
      invariant shared == Shared(norm, wanted[..n], present)
    {
      assert wanted[..n+1][..n] == wanted[..n];
      if Have(present, norm(wanted[n].url)) > 0 {
        shared := shared + 1;
      }
    }
    assert wanted[..|wanted|] == wanted;
  }

  method FindBestMatch(norm: Norm, wanted: seq<RestoreTab>, refs: seq<string>, openByWindow: map<string, Counts>,
                       claimed: set<string>, ghost idx: OpenIndex)
    returns (match_: Option<string>)
    requires idx.Valid() && refs == idx.refs && AgreesOutside(openByWindow, idx, claimed)
    ensures match_ == BestMatch(norm, wanted, idx, claimed)
  {
    var best: Option<string> := None;
    var bestShared := 0;
    for n := 0 to |refs|
      invariant (best, bestShared) == BestSoFar(norm, wanted, idx, refs[..n], claimed)
    {
      assert refs[..n+1][..n] == refs[..n];
      var ref := refs[n];
      if ref in claimed {
        continue;
      }
      var shared := CountShared(norm, wanted, openByWindow[ref]);
      if shared > bestShared {
        bestShared := shared;
        best := Some(ref);
      }
    }
    assert refs[..|refs|] == refs;
    match_ := if THRESHOLD_DEN * bestShared >= THRESHOLD_NUM * |wanted| then best else None;
  }

  lemma TopUpStep(norm: Norm, wanted: seq<RestoreTab>, n: nat, ref: string, present: Counts)
    requires n < |wanted|
    ensures var now := Consume(norm, wanted[..n], present);
      var key := norm(wanted[n].url);
      if Have(now, key) > 0 then
        && Consume(norm, wanted[..n+1], present) == now[key := now[key] - 1]
        && Missing(norm, wanted[..n+1], present) == Missing(norm, wanted[..n], present)
      else
        && Consume(norm, wanted[..n+1], present) == now
        && Target(Missing(norm, wanted[..n+1], present), ref)
           == Target(Missing(norm, wanted[..n], present), ref) + [PlannedTab(wanted[n], ref)]
  {
    assert wanted[..n+1][..n] == wanted[..n];
    var before := Missing(norm, wanted[..n], present);
    assert (before + [wanted[n]])[..|before|] == before;
  }

  /** Tops up one matched window, consuming one open occurrence per wanted tab. */
  method TopUp(norm: Norm, wanted: seq<RestoreTab>, ref: string, present0: Counts)
    returns (present: Counts, missing: seq<PlannedTab>, alreadyOpen: nat)
    ensures present == Consume(norm, wanted, present0)
    ensures missing == Target(Missing(norm, wanted, present0), ref)
    ensures alreadyOpen == |wanted| - |missing|
  {
    present, missing, alreadyOpen := present0, [], 0;
    for n := 0 to |wanted|
      invariant present == Consume(norm, wanted[..n], present0)
      invariant missing == Target(Missing(norm, wanted[..n], present0), ref)
      invariant alreadyOpen == n - |missing|
    {
      TopUpStep(norm, wanted, n, ref, present0);
      var key := norm(wanted[n].url);
      var remaining := Have(present, key);
      if remaining > 0 {
        present := present[key := remaining - 1];
        alreadyOpen := alreadyOpen + 1;
      } else {
        missing := missing + [PlannedTab(wanted[n], ref)];
      }
    }
    assert wanted[..|wanted|] == wanted;
  }

  lemma PlanTake(norm: Norm, desired: seq<RestoreWindow>, idx: OpenIndex, n: nat)
    requires n < |desired|
    ensures var before := Plan(norm, desired[..n], idx); var after := Plan(norm, desired[..n+1], idx);
      var claim := ClaimFor(norm, desired[n], idx, ClaimSet(before.claims));
      && after.plan == Extend(norm, before.plan, desired[n], idx, claim)
      && ClaimSet(after.claims) == Claimed(ClaimSet(before.claims), claim)
  {
    var before := Plan(norm, desired[..n], idx);
    assert desired[..n+1][..n] == desired[..n];
    ClaimSetGrows(before.claims, ClaimFor(norm, desired[n], idx, ClaimSet(before.claims)));
  }

  function Claimed(claimed: set<string>, claim: Option<string>): set<string> {
    if claim.Some? then claimed + {claim.value} else claimed
  }

  /** One stored window: skipped, planned anew, or topped up in the open window it claims. */
  method PlanWindow(norm: Norm, want: RestoreWindow, refs: seq<string>, openByWindow: map<string, Counts>,
                    claimed: set<string>, plan: RestorePlan, ghost idx: OpenIndex)
    returns (plan': RestorePlan, claimed': set<string>, openByWindow': map<string, Counts>)
    requires idx.Valid() && refs == idx.refs && AgreesOutside(openByWindow, idx, claimed)
    ensures var claim := ClaimFor(norm, want, idx, claimed);
      plan' == Extend(norm, plan, want, idx, claim) && claimed' == Claimed(claimed, claim)
    ensures AgreesOutside(openByWindow', idx, claimed')
  {
    plan', claimed', openByWindow' := plan, claimed, openByWindow;
    var wanted := Wanted(norm, want.tabs);
    if wanted == [] {
      return;
    }
    var match_ := FindBestMatch(norm, wanted, refs, openByWindow, claimed, idx);
    if match_ == None {
      plan' := plan.(newWindows := plan.newWindows + [NewWindow(want, wanted)]);
      return;
    }
    BestMatchUnclaimed(norm, wanted, idx, idx.refs, claimed);
    claimed' := claimed + {match_.value};
    var present, missing, alreadyOpen := TopUp(norm, wanted, match_.value, openByWindow[match_.value]);
    openByWindow' := openByWindow[match_.value := present];
    plan' := plan.(additions := plan.additions + missing, alreadyOpen := plan.alreadyOpen + alreadyOpen);
  }

  method PlanRestore(norm: Norm, desired: seq<RestoreWindow>, open: seq<OpenTab>) returns (plan: RestorePlan)
    ensures plan == Plan(norm, desired, Index(norm, open)).plan
  {
    var refs, openByWindow := IndexOpen(norm, open);
    ghost var idx := Index(norm, open);
    plan := EMPTY_PLAN;
    var claimed: set<string> := {};
    for n := 0 to |desired|
      invariant plan == Plan(norm, desired[..n], idx).plan
      invariant claimed == ClaimSet(Plan(norm, desired[..n], idx).claims)
      invariant AgreesOutside(openByWindow, idx, claimed)
    {
      PlanTake(norm, desired, idx, n);
      plan, claimed, openByWindow := PlanWindow(norm, desired[n], refs, openByWindow, claimed, plan, idx);
    }
    assert desired[..|desired|] == desired;
  }

  lemma ClaimSetGrows(claims: seq<Option<string>>, claim: Option<string>)
    ensures ClaimSet(claims + [claim]) == ClaimSet(claims) + (if claim.Some? then {claim.value} else {})
  {
    var more := claims + [claim];
    assert forall c :: c in more <==> c in claims || c == claim;
    forall r | r in ClaimSet(claims) + (if claim.Some? then {claim.value} else {})
      ensures r in ClaimSet(more)
    {
      assert Some(r) in more;
    }
  }

  lemma BestMatchUnclaimed(norm: Norm, wanted: seq<RestoreTab>, idx: OpenIndex, refs: seq<string>, claimed: set<string>)
    ensures BestSoFar(norm, wanted, idx, refs, claimed).0.Some?
            ==> BestSoFar(norm, wanted, idx, refs, claimed).0.value !in claimed
  {
  }
}
