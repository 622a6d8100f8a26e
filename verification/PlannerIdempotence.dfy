/**
 Carrying a restore plan out and planning again creates nothing, when no two stored windows
 share a key (extension/src/background/plan.ts).
 */
module PlannerIdempotence {
  import opened Options
  import opened Planner
  import opened PlannerProofs

  ghost predicate DisjointKeys(norm: Norm, desired: seq<RestoreWindow>) {
    forall i, j, t, u | 0 <= i < j < |desired| && t in desired[i].tabs && u in desired[j].tabs && norm(t.url) != "" ::
      norm(t.url) != norm(u.url)
  }

  /** A restore: stored windows, what was open, and the names the browser gives new windows. */
  datatype Restore = Restore(norm: Norm, desired: seq<RestoreWindow>, open: seq<OpenTab>, names: seq<string>)
  {
    ghost predicate Valid() {
      NewNames(open, names) && |First().plan.newWindows| <= |names|
    }

    ghost function Before(): OpenIndex { Index(norm, open) }

    ghost function First(): Progress { Plan(norm, desired, Before()) }

    ghost function After(): OpenIndex
      requires Valid()
    {
      Index(norm, Execute(open, First().plan, names))
    }

    ghost function W(i: nat): seq<RestoreTab>
      requires i < |desired|
    {
      Wanted(norm, desired[i].tabs)
    }

    /** How many new windows precede window i's. */
    ghost function NewBefore(i: nat): nat
      requires i <= |desired|
    {
      |Plan(norm, desired[..i], Before()).plan.newWindows|
    }

    /** Window i is created whole. */
    ghost predicate IsNew(i: nat) {
      i < |desired| && W(i) != [] && First().claims[i].None?
    }
  }

  // ----- Where the new windows come from -----

  lemma NewWindowAt(r: Restore, i: nat)
    requires r.IsNew(i)
    ensures r.NewBefore(i) < |r.First().plan.newWindows|
    ensures r.First().plan.newWindows[r.NewBefore(i)].tabs == r.W(i)
    ensures r.NewBefore(i + 1) == r.NewBefore(i) + 1
  {
    var idx := r.Before();
    PlanPrefix(r.norm, r.desired, idx, i + 1);
    ClaimAt(r.norm, r.desired, idx, i);
    assert r.desired[..i+1][..i] == r.desired[..i];
    var upTo := Plan(r.norm, r.desired[..i+1], idx).plan.newWindows;
    assert upTo <= r.First().plan.newWindows;
    assert upTo[r.NewBefore(i)] == r.First().plan.newWindows[r.NewBefore(i)];
  }

  lemma {:induction false} NewWindowOrigin(r: Restore, j: nat, m: nat) returns (i: nat)
    requires m <= |r.desired| && j < r.NewBefore(m)
    ensures i < m && r.IsNew(i) && r.NewBefore(i) == j
    decreases m
  {
    var idx := r.Before();
    i := m - 1;
    ClaimAt(r.norm, r.desired, idx, i);
    assert r.desired[..m][..i] == r.desired[..i];
    if j < r.NewBefore(i) {
      i := NewWindowOrigin(r, j, i);
    }
  }

  // ----- What is open afterwards -----

  lemma HaveAfter(r: Restore, ref: string, key: string)
    requires r.Valid() && key != ""
    ensures HaveIn(r.After(), ref, key)
            == HaveIn(r.Before(), ref, key) + CountOpen(r.norm, Added(r.First().plan.additions), ref, key)
               + CountOpen(r.norm, Opened(r.First().plan.newWindows, r.names), ref, key)
  {
    IndexCounts(r.norm, Execute(r.open, r.First().plan, r.names), ref, key);
    IndexCounts(r.norm, r.open, ref, key);
    ExecuteCounts(r.norm, r.open, r.First().plan, r.names, ref, key);
  }

  lemma NotOpened(r: Restore, ref: string, key: string)
    requires r.Valid() && ref in r.Before().refs
    ensures CountOpen(r.norm, Opened(r.First().plan.newWindows, r.names), ref, key) == 0
  {
    RefIsOpen(r.norm, r.open, ref);
    CountOpenZero(r.norm, Opened(r.First().plan.newWindows, r.names), ref, key);
  }

  lemma KeysDiffer(r: Restore, i: nat, j: nat, t: RestoreTab)
    requires DisjointKeys(r.norm, r.desired) && i < |r.desired| && j < |r.desired| && i != j
    requires t in r.W(i)
    ensures CountTabs(r.norm, r.W(j), r.norm(t.url)) == 0
  {
    CountTabsZero(r.norm, r.W(j), r.norm(t.url));
  }

  lemma MissingOfNone(norm: Norm, wanted: seq<RestoreTab>, present: Counts, key: string)
    requires CountTabs(norm, wanted, key) == 0
    ensures CountTabs(norm, Missing(norm, wanted, present), key) == 0
  {
    MissingCounts(norm, wanted, present, key);
  }

  /** A window not claimed by i keeps its counts for i's keys. */
  lemma OthersUnchanged(r: Restore, i: nat, ref: string, t: RestoreTab)
    requires r.Valid() && DisjointKeys(r.norm, r.desired)
    requires i < |r.desired| && ref in r.Before().refs && r.First().claims[i] != Some(ref) && t in r.W(i)
    ensures HaveIn(r.After(), ref, r.norm(t.url)) == HaveIn(r.Before(), ref, r.norm(t.url))
  {
    var key := r.norm(t.url);
    HaveAfter(r, ref, key);
    NotOpened(r, ref, key);
    if Some(ref) in r.First().claims {
      var j: nat :| j < |r.desired| && r.First().claims[j] == Some(ref);
      AdditionsTo(r.norm, r.desired, r.Before(), j, ref, key);
      KeysDiffer(r, i, j, t);
      MissingOfNone(r.norm, r.W(j), r.Before().counts[ref], key);
    } else {
      NoAdditionsTo(r.norm, r.desired, r.Before(), ref, key);
    }
  }

  lemma ClaimedFilled(r: Restore, i: nat, ref: string, key: string)
    requires r.Valid() && key != "" && i < |r.desired| && r.First().claims[i] == Some(ref)
    ensures HaveIn(r.After(), ref, key) >= CountTabs(r.norm, r.W(i), key)
  {
    assert Some(ref) in r.First().claims;
    RefIsOpen(r.norm, r.open, ref);
    ExactTopUp(r.norm, r.desired, r.open, r.names, ref, key);
    WantedCounts(r.norm, r.desired[i].tabs, key);
    IndexCounts(r.norm, Execute(r.open, r.First().plan, r.names), ref, key);
  }

  lemma NewCounts(r: Restore, j: nat, key: string)
    requires r.Valid() && j < |r.First().plan.newWindows| && key != ""
    ensures HaveIn(r.After(), r.names[j], key) == CountTabs(r.norm, r.First().plan.newWindows[j].tabs, key)
  {
    var ref := r.names[j];
    HaveAfter(r, ref, key);
    OpenedCounts(r.norm, r.First().plan.newWindows, r.names, j, key);
    if ref in r.Before().refs { RefIsOpen(r.norm, r.open, ref); }
    var claims := r.First().claims;
    assert Some(ref) in claims ==> ref in r.Before().refs;
    NoAdditionsTo(r.norm, r.desired, r.Before(), ref, key);
  }

  /** A new window made for another stored window holds none of i's keys. */
  lemma OtherNewEmpty(r: Restore, i: nat, j: nat, t: RestoreTab)
    requires r.Valid() && DisjointKeys(r.norm, r.desired)
    requires i < |r.desired| && j < |r.First().plan.newWindows| && t in r.W(i)
    requires r.IsNew(i) ==> j != r.NewBefore(i)
    ensures HaveIn(r.After(), r.names[j], r.norm(t.url)) == 0
  {
    assert r.desired[..|r.desired|] == r.desired;
    var k := NewWindowOrigin(r, j, |r.desired|);
    NewWindowAt(r, k);
    NewCounts(r, j, r.norm(t.url));
    KeysDiffer(r, i, k, t);
  }

  // ----- Scores -----

  lemma {:induction false} SharedSame(norm: Norm, wanted: seq<RestoreTab>, a: Counts, b: Counts)
    requires forall t :: t in wanted ==> (Have(a, norm(t.url)) > 0 <==> Have(b, norm(t.url)) > 0)
    ensures Shared(norm, wanted, a) == Shared(norm, wanted, b)
  {
    if wanted != [] {
      assert wanted[|wanted|-1] in wanted;
      SharedSame(norm, wanted[..|wanted|-1], a, b);
    }
  }

  lemma {:induction false} SharedNone(norm: Norm, wanted: seq<RestoreTab>, a: Counts)
    requires forall t :: t in wanted ==> Have(a, norm(t.url)) == 0
    ensures Shared(norm, wanted, a) == 0
  {
    if wanted != [] {
      assert wanted[|wanted|-1] in wanted;
      SharedNone(norm, wanted[..|wanted|-1], a);
    }
  }

  lemma {:induction false} SharedAll(norm: Norm, wanted: seq<RestoreTab>, a: Counts)
    requires forall t :: t in wanted ==> Have(a, norm(t.url)) > 0
    ensures Shared(norm, wanted, a) == |wanted|
  {
    if wanted != [] {
      assert wanted[|wanted|-1] in wanted;
      SharedAll(norm, wanted[..|wanted|-1], a);
    }
  }

  lemma OthersScore(r: Restore, i: nat, ref: string)
    requires r.Valid() && DisjointKeys(r.norm, r.desired)
    requires i < |r.desired| && ref in r.Before().refs && r.First().claims[i] != Some(ref)
    requires ref in r.After().refs
    ensures SharedIn(r.norm, r.W(i), r.After(), ref) == SharedIn(r.norm, r.W(i), r.Before(), ref)
  {
    forall t | t in r.W(i)
      ensures Have(r.After().counts[ref], r.norm(t.url)) == Have(r.Before().counts[ref], r.norm(t.url))
    {
      OthersUnchanged(r, i, ref, t);
    }
    SharedSame(r.norm, r.W(i), r.After().counts[ref], r.Before().counts[ref]);
  }

  /** Where window i is found the second time. */
  ghost function Home(r: Restore, i: nat): Option<string>
    requires r.Valid() && i < |r.desired|
    requires r.IsNew(i) ==> r.NewBefore(i) < |r.names|
  {
    if r.IsNew(i) then Some(r.names[r.NewBefore(i)]) else r.First().claims[i]
  }

  lemma HomeFilled(r: Restore, i: nat, key: string)
    requires r.Valid() && key != "" && i < |r.desired| && r.W(i) != []
    ensures r.IsNew(i) ==> r.NewBefore(i) < |r.names|
    ensures Home(r, i).Some?
    ensures HaveIn(r.After(), Home(r, i).value, key) >= CountTabs(r.norm, r.W(i), key)
  {
    if r.IsNew(i) {
      NewWindowAt(r, i);
      NewCounts(r, r.NewBefore(i), key);
    } else {
      ClaimedFilled(r, i, r.First().claims[i].value, key);
    }
  }

  lemma HomeScore(r: Restore, i: nat)
    requires r.Valid() && i < |r.desired| && r.W(i) != []
    ensures r.IsNew(i) ==> r.NewBefore(i) < |r.names|
    ensures Home(r, i).Some? && Home(r, i).value in r.After().refs
    ensures SharedIn(r.norm, r.W(i), r.After(), Home(r, i).value) == |r.W(i)|
  {
    assert r.W(i)[0] in r.W(i);
    HomeFilled(r, i, r.norm(r.W(i)[0].url));
    var home := Home(r, i).value;
    forall t | t in r.W(i) ensures HaveIn(r.After(), home, r.norm(t.url)) > 0 {
      HomeFilled(r, i, r.norm(t.url));
      var k: nat :| k < |r.W(i)| && r.W(i)[k] == t;
      CountTabsPositive(r.norm, r.W(i), k);
    }
    assert HaveIn(r.After(), home, r.norm(r.W(i)[0].url)) > 0;
    SharedAll(r.norm, r.W(i), r.After().counts[home]);
  }

  lemma OtherNewScore(r: Restore, i: nat, j: nat)
    requires r.Valid() && DisjointKeys(r.norm, r.desired)
    requires i < |r.desired| && j < |r.First().plan.newWindows|
    requires r.IsNew(i) ==> j != r.NewBefore(i)
    ensures SharedIn(r.norm, r.W(i), r.After(), r.names[j]) == 0
  {
    var ref := r.names[j];
    if ref in r.After().counts {
      forall t | t in r.W(i) ensures Have(r.After().counts[ref], r.norm(t.url)) == 0 {
        OtherNewEmpty(r, i, j, t);
      }
      SharedNone(r.norm, r.W(i), r.After().counts[ref]);
    }
  }

  // ----- The second plan replays the first -----

  ghost predicate HomesKnown(r: Restore) {
    forall i: nat :: r.IsNew(i) ==> r.NewBefore(i) < |r.names|
  }

  ghost function Homes(r: Restore, m: nat): (h: seq<Option<string>>)
    requires r.Valid() && m <= |r.desired| && HomesKnown(r)
    ensures |h| == m && forall i | 0 <= i < m :: h[i] == if r.W(i) == [] then None else Home(r, i)
  {
    seq(m, i requires 0 <= i < m => if r.W(i) == [] then None else Home(r, i))
  }

  lemma NewIndexGrows(r: Restore, i: nat, k: nat)
    requires i < k <= |r.desired| && r.IsNew(i)
    ensures r.NewBefore(i) < r.NewBefore(k)
  {
    NewWindowAt(r, i);
    PlanPrefix(r.norm, r.desired[..k], r.Before(), i + 1);
    assert r.desired[..k][..i+1] == r.desired[..i+1];
  }

  /** Among the windows that were open, the second plan has claimed what the first had. */
  lemma SameClaims(r: Restore, i: nat, ref: string)
    requires r.Valid() && i <= |r.desired| && HomesKnown(r) && ref in r.Before().refs
    ensures ref in ClaimSet(Homes(r, i)) <==> ref in ClaimedBefore(r.norm, r.desired, r.Before(), i)
  {
    RefIsOpen(r.norm, r.open, ref);
    PlanPrefix(r.norm, r.desired, r.Before(), i);
    var claims := Plan(r.norm, r.desired[..i], r.Before()).claims;
    var homes := Homes(r, i);
    forall k | 0 <= k < i ensures claims[k] == Some(ref) <==> homes[k] == Some(ref) {
      ClaimAt(r.norm, r.desired, r.Before(), k);
      assert claims[k] == r.First().claims[k];
    }
    if ref in ClaimSet(homes) {
      assert Some(ref) in homes;
      var k :| 0 <= k < i && homes[k] == Some(ref);
      assert claims[k] in claims;
    }
    if ref in ClaimSet(claims) {
      assert Some(ref) in claims;
      var k :| 0 <= k < i && claims[k] == Some(ref);
      assert homes[k] in homes;
    }
  }

  lemma HomeUnclaimed(r: Restore, i: nat)
    requires r.Valid() && i < |r.desired| && HomesKnown(r) && r.W(i) != []
    requires Home(r, i).Some?
    ensures Home(r, i).value !in ClaimSet(Homes(r, i))
  {
    var home := Home(r, i).value;
    if home in ClaimSet(Homes(r, i)) {
      assert Some(home) in Homes(r, i);
      var k :| 0 <= k < i && Homes(r, i)[k] == Some(home);
      if r.IsNew(k) { NewIndexGrows(r, k, i); }
      if r.IsNew(k) != r.IsNew(i) {
        RefIsOpen(r.norm, r.open, home);
      } else if !r.IsNew(k) {
        ClaimsDistinct(r.norm, r.desired, r.Before(), k, i);
      }
      assert false;
    }
  }

  /** Where a window's home stands among the open ones after the first plan, ahead of every other unclaimed window. */
  ghost predicate HomeAt(r: Restore, i: nat, p: nat)
    requires r.Valid() && HomesKnown(r) && i < |r.desired| && Home(r, i).Some?
  {
    && p < |r.After().refs| && r.After().refs[p] == Home(r, i).value
    && if r.IsNew(i) then p == |r.Before().refs| + r.NewBefore(i)
       else IsBest(r.norm, r.W(i), r.Before(), ClaimedBefore(r.norm, r.desired, r.Before(), i), p)
            && r.Before().refs[p] == Home(r, i).value
  }

  lemma FindHome(r: Restore, i: nat) returns (p: nat)
    requires r.Valid() && DisjointKeys(r.norm, r.desired) && HomesKnown(r)
    requires i < |r.desired| && r.W(i) != [] && Home(r, i).Some?
    ensures HomeAt(r, i, p)
  {
    ExecuteIndex(r.norm, r.desired, r.open, r.names);
    ClaimIsBest(r.norm, r.desired, r.Before(), i);
    if r.IsNew(i) {
      NewWindowAt(r, i);
      p := |r.Before().refs| + r.NewBefore(i);
    } else {
      p :| IsBest(r.norm, r.W(i), r.Before(), ClaimedBefore(r.norm, r.desired, r.Before(), i), p)
           && r.Before().refs[p] == Home(r, i).value;
    }
  }

  /** A window that was open all along and is not the home scores what it scored the first time. */
  lemma OldRival(r: Restore, i: nat, p: nat, q: nat)
    requires r.Valid() && DisjointKeys(r.norm, r.desired) && HomesKnown(r)
    requires i < |r.desired| && r.W(i) != [] && Home(r, i).Some? && HomeAt(r, i, p)
    requires q < |r.Before().refs| && q != p && r.Before().refs[q] in r.After().refs
    requires r.Before().refs[q] !in ClaimSet(Homes(r, i))
    ensures q < p ==> SharedIn(r.norm, r.W(i), r.After(), r.Before().refs[q]) < |r.W(i)|
  {
    var ref := r.Before().refs[q];
    SameClaims(r, i, ref);
    assert r.Before().Valid();
    assert r.First().claims[i] != Some(ref);
    OthersScore(r, i, ref);
    if r.IsNew(i) { ClaimIsBest(r.norm, r.desired, r.Before(), i); }
  }

  lemma ConcatAt<T>(all: seq<T>, a: seq<T>, b: seq<T>, m: nat, q: nat)
    requires m <= |b| && all == a + b[..m] && q < |all|
    ensures if q < |a| then all[q] == a[q] else q - |a| < m && all[q] == b[q - |a|]
  {
  }

  lemma AfterRefs(r: Restore, q: nat)
    requires r.Valid() && q < |r.After().refs|
    ensures var n := |r.Before().refs|;
      if q < n then r.After().refs[q] == r.Before().refs[q]
      else q - n < |r.First().plan.newWindows| && r.After().refs[q] == r.names[q - n]
  {
    ExecuteIndex(r.norm, r.desired, r.open, r.names);
    ConcatAt(r.After().refs, r.Before().refs, r.names, |r.First().plan.newWindows|, q);
  }

  lemma NewRival(r: Restore, i: nat, q: nat)
    requires r.Valid() && DisjointKeys(r.norm, r.desired) && i < |r.desired|
    requires |r.Before().refs| <= q < |r.After().refs|
    requires r.IsNew(i) ==> q != |r.Before().refs| + r.NewBefore(i)
    ensures SharedIn(r.norm, r.W(i), r.After(), r.After().refs[q]) == 0
  {
    AfterRefs(r, q);
    OtherNewScore(r, i, q - |r.Before().refs|);
  }

  lemma RivalScore(r: Restore, i: nat, p: nat, q: nat)
    requires r.Valid() && DisjointKeys(r.norm, r.desired) && HomesKnown(r)
    requires i < |r.desired| && r.W(i) != [] && Home(r, i).Some? && HomeAt(r, i, p)
    requires q < |r.After().refs| && q != p && r.After().refs[q] !in ClaimSet(Homes(r, i))
    ensures q < p ==> SharedIn(r.norm, r.W(i), r.After(), r.After().refs[q]) < |r.W(i)|
  {
    AfterRefs(r, q);
    if q < |r.Before().refs| { OldRival(r, i, p, q); } else { NewRival(r, i, q); }
  }

  lemma HomeIsBest(r: Restore, i: nat) returns (p: nat)
    requires r.Valid() && DisjointKeys(r.norm, r.desired) && HomesKnown(r)
    requires i < |r.desired| && r.W(i) != [] && Home(r, i).Some?
    ensures IsBest(r.norm, r.W(i), r.After(), ClaimSet(Homes(r, i)), p) && r.After().refs[p] == Home(r, i).value
    ensures SharedIn(r.norm, r.W(i), r.After(), Home(r, i).value) == |r.W(i)|
  {
    p := FindHome(r, i);
    HomeScore(r, i);
    HomeUnclaimed(r, i);
    var after := r.After();
    forall q | 0 <= q < |after.refs| && q != p && after.refs[q] !in ClaimSet(Homes(r, i))
      ensures SharedIn(r.norm, r.W(i), after, after.refs[q]) <= |r.W(i)|
      ensures q < p ==> SharedIn(r.norm, r.W(i), after, after.refs[q]) < |r.W(i)|
    {
      RivalScore(r, i, p, q);
    }
  }

  lemma PlanStep(norm: Norm, desired: seq<RestoreWindow>, idx: OpenIndex, i: nat)
    requires i < |desired|
    ensures var before := Plan(norm, desired[..i], idx);
      var claim := ClaimFor(norm, desired[i], idx, ClaimSet(before.claims));
      Plan(norm, desired[..i+1], idx)
      == Progress(Extend(norm, before.plan, desired[i], idx, claim), before.claims + [claim])
  {
    assert desired[..i+1][..i] == desired[..i];
  }

  lemma SecondClaim(r: Restore, i: nat)
    requires r.Valid() && DisjointKeys(r.norm, r.desired) && HomesKnown(r) && i < |r.desired|
    ensures ClaimFor(r.norm, r.desired[i], r.After(), ClaimSet(Homes(r, i))) == Homes(r, i + 1)[i]
  {
    if r.W(i) != [] {
      HomeScore(r, i);
      var p := HomeIsBest(r, i);
      BestMatchExactly(r.norm, r.W(i), r.After(), ClaimSet(Homes(r, i)), Home(r, i).value);
    }
  }

  lemma HomesGrow(r: Restore, i: nat)
    requires r.Valid() && i < |r.desired| && HomesKnown(r)
    ensures Homes(r, i + 1) == Homes(r, i) + [Homes(r, i + 1)[i]]
  {
  }

  lemma {:induction false} SecondClaims(r: Restore, m: nat)
    requires r.Valid() && DisjointKeys(r.norm, r.desired) && HomesKnown(r) && m <= |r.desired|
    ensures Plan(r.norm, r.desired[..m], r.After()).claims == Homes(r, m)
  {
    if m > 0 {
      var i := m - 1;
      SecondClaims(r, i);
      PlanStep(r.norm, r.desired, r.After(), i);
      SecondClaim(r, i);
      HomesGrow(r, i);
    }
  }

  lemma NothingMissing(norm: Norm, wanted: seq<RestoreTab>, present: Counts)
    requires forall t :: t in wanted ==> CountTabs(norm, wanted, norm(t.url)) <= Have(present, norm(t.url))
    ensures Missing(norm, wanted, present) == []
  {
    var missing := Missing(norm, wanted, present);
    if missing != [] {
      var t := missing[0];
      assert t in missing && t in wanted;
      CountTabsPositive(norm, missing, 0);
      MissingCounts(norm, wanted, present, norm(t.url));
    }
  }

  lemma NothingMissingAtHome(r: Restore, i: nat)
    requires r.Valid() && i < |r.desired| && HomesKnown(r) && r.W(i) != []
    ensures Home(r, i).Some? && Home(r, i).value in r.After().counts
    ensures Missing(r.norm, r.W(i), r.After().counts[Home(r, i).value]) == []
  {
    HomeScore(r, i);
    var home := Home(r, i).value;
    forall t | t in r.W(i)
      ensures CountTabs(r.norm, r.W(i), r.norm(t.url)) <= Have(r.After().counts[home], r.norm(t.url))
    {
      HomeFilled(r, i, r.norm(t.url));
    }
    NothingMissing(r.norm, r.W(i), r.After().counts[home]);
  }

  lemma AllWantedStep(norm: Norm, desired: seq<RestoreWindow>, i: nat)
    requires i < |desired|
    ensures AllWanted(norm, desired[..i+1]) == AllWanted(norm, desired[..i]) + Wanted(norm, desired[i].tabs)
  {
    assert desired[..i+1][..i] == desired[..i];
  }

  /** A window whose home lacks nothing adds nothing to the plan but its count. */
  lemma ExtendAtHome(norm: Norm, plan: RestorePlan, want: RestoreWindow, idx: OpenIndex, home: Option<string>)
    requires Wanted(norm, want.tabs) != [] ==>
      home.Some? && home.value in idx.counts && Missing(norm, Wanted(norm, want.tabs), idx.counts[home.value]) == []
    ensures var after := Extend(norm, plan, want, idx, home);
      && after.newWindows == plan.newWindows && after.additions == plan.additions
      && after.alreadyOpen == plan.alreadyOpen + |Wanted(norm, want.tabs)|
  {
    if Wanted(norm, want.tabs) != [] { assert plan.additions + Target([], home.value) == plan.additions; }
  }

  lemma {:induction false} SecondPlanEmpty(r: Restore, m: nat)
    requires r.Valid() && DisjointKeys(r.norm, r.desired) && HomesKnown(r) && m <= |r.desired|
    ensures Plan(r.norm, r.desired[..m], r.After()).plan == RestorePlan([], [], |AllWanted(r.norm, r.desired[..m])|)
  {
    if m > 0 {
      var i := m - 1;
      SecondPlanEmpty(r, i);
      SecondPlanStep(r, i);
      AllWantedStep(r.norm, r.desired, i);
    }
  }

  lemma SecondPlanStep(r: Restore, i: nat)
    requires r.Valid() && DisjointKeys(r.norm, r.desired) && HomesKnown(r) && i < |r.desired|
    ensures var before, after := Plan(r.norm, r.desired[..i], r.After()).plan,
                              Plan(r.norm, r.desired[..i+1], r.After()).plan;
      && after.newWindows == before.newWindows && after.additions == before.additions
      && after.alreadyOpen == before.alreadyOpen + |r.W(i)|
  {
    SecondClaims(r, i);
    PlanStep(r.norm, r.desired, r.After(), i);
    SecondClaim(r, i);
    if r.W(i) != [] { NothingMissingAtHome(r, i); }
    ExtendAtHome(r.norm, Plan(r.norm, r.desired[..i], r.After()).plan, r.desired[i], r.After(), Homes(r, i + 1)[i]);
  }

  /**
   Planning is idempotent: once a plan was carried out, planning the same session again
   creates no window, adds no tab, and counts every stored tab with a usable key as already open.
   */
  lemma PlanningIsIdempotent(norm: Norm, desired: seq<RestoreWindow>, open: seq<OpenTab>, names: seq<string>)
    requires DisjointKeys(norm, desired) && NewNames(open, names)
    requires |Plan(norm, desired, Index(norm, open)).plan.newWindows| <= |names|
    ensures var after := Execute(open, Plan(norm, desired, Index(norm, open)).plan, names);
      Plan(norm, desired, Index(norm, after)).plan == RestorePlan([], [], CountUsable(norm, AllTabs(desired)))
  {
    var r := Restore(norm, desired, open, names);
    forall i: nat | r.IsNew(i) ensures r.NewBefore(i) < |r.names| {
      NewWindowAt(r, i);
    }
    SecondPlanEmpty(r, |desired|);
    AllWantedIs(norm, desired);
    WantedCounts(norm, AllTabs(desired), "");
    assert desired[..|desired|] == desired;
  }

  // ----- Shared keys -----

  lemma SharedSnoc(norm: Norm, tabs: seq<RestoreTab>, t: RestoreTab, present: Counts)
    ensures Shared(norm, tabs + [t], present)
            == Shared(norm, tabs, present) + (if Have(present, norm(t.url)) > 0 then 1 else 0)
  {
    assert (tabs + [t])[..|tabs|] == tabs;
  }

  lemma OneTab(norm: Norm, a: RestoreTab, present: Counts)
    requires norm(a.url) != ""
    ensures Wanted(norm, [a]) == [a]
    ensures Shared(norm, [a], present) == if Have(present, norm(a.url)) > 0 then 1 else 0
    ensures Missing(norm, [a], present) == if Have(present, norm(a.url)) > 0 then [] else [a]
  {
    assert [] + [a] == [a];
    WantedSnoc(norm, [], a);
    SharedSnoc(norm, [], a, present);
    KeptSnoc(norm, [], a, present);
  }

  lemma OneConsumed(norm: Norm, a: RestoreTab, present: Counts, key: string)
    requires key != norm(a.url)
    ensures Have(Consume(norm, [a], present), key) == Have(present, key)
  {
    assert [a][..0] == [];
    assert Consume(norm, [], present) == present;
  }

  lemma TwoTabs(norm: Norm, a: RestoreTab, c: RestoreTab, present: Counts)
    requires norm(a.url) != "" && norm(c.url) != "" && norm(a.url) != norm(c.url)
    ensures Wanted(norm, [a, c]) == [a, c]
    ensures Shared(norm, [a, c], present)
            == (if Have(present, norm(a.url)) > 0 then 1 else 0) + (if Have(present, norm(c.url)) > 0 then 1 else 0)
    ensures Missing(norm, [a, c], present)
            == (if Have(present, norm(a.url)) > 0 then [] else [a])
               + (if Have(present, norm(c.url)) > 0 then [] else [c])
  {
    assert [a] + [c] == [a, c];
    OneTab(norm, a, present);
    OneConsumed(norm, a, present, norm(c.url));
    WantedSnoc(norm, [a], c);
    SharedSnoc(norm, [a], c, present);
    KeptSnoc(norm, [a], c, present);
  }

  lemma BestSnoc(norm: Norm, wanted: seq<RestoreTab>, idx: OpenIndex, claimed: set<string>, refs: seq<string>,
                 y: string)
    ensures var first := BestSoFar(norm, wanted, idx, refs, claimed);
      BestSoFar(norm, wanted, idx, refs + [y], claimed)
      == if y !in claimed && SharedIn(norm, wanted, idx, y) > first.1 then (Some(y), SharedIn(norm, wanted, idx, y))
         else first
  {
    assert (refs + [y])[..|refs|] == refs;
  }

  lemma BestOfTwo(norm: Norm, wanted: seq<RestoreTab>, idx: OpenIndex, claimed: set<string>, x: string, y: string)
    requires idx.refs == [x, y]
    ensures var s := if x !in claimed then SharedIn(norm, wanted, idx, x) else 0;
      BestSoFar(norm, wanted, idx, idx.refs, claimed)
      == if y !in claimed && SharedIn(norm, wanted, idx, y) > s then (Some(y), SharedIn(norm, wanted, idx, y))
         else (if s > 0 then Some(x) else None, s)
  {
    BestSnoc(norm, wanted, idx, claimed, [], x);
    BestSnoc(norm, wanted, idx, claimed, [x], y);
    assert [] + [x] == [x] && [x] + [y] == idx.refs;
  }

  /** The plan for stored windows {a} and {a, c}, given what each claims. */
  lemma TwoStored(norm: Norm, idx: OpenIndex, one: RestoreWindow, two: RestoreWindow, m1: string, m2: string)
    requires m1 in idx.counts && m2 in idx.counts
    requires ClaimFor(norm, one, idx, {}) == Some(m1) && ClaimFor(norm, two, idx, {m1}) == Some(m2)
    ensures Plan(norm, [one, two], idx).plan
            == Extend(norm, Extend(norm, EMPTY_PLAN, one, idx, Some(m1)), two, idx, Some(m2))
  {
    var desired := [one, two];
    var empty: seq<Option<string>> := [];
    assert Plan(norm, [], idx) == Progress(EMPTY_PLAN, empty);
    assert desired[..0] == [] && desired[..1] == [one] && desired[..2] == desired;
    assert ClaimSet(empty) == {};
    PlanStep(norm, desired, idx, 0);
    ClaimSetGrows(empty, Some(m1));
    assert empty + [Some(m1)] == [Some(m1)];
    assert ClaimSet([Some(m1)]) == {m1};
    PlanStep(norm, desired, idx, 1);
  }

  /** Stored windows {a} and {a, c}, with different usable keys, over open windows x and y. */
  predicate Overlap(norm: Norm, a: RestoreTab, c: RestoreTab, one: RestoreWindow, two: RestoreWindow) {
    && norm(a.url) != "" && norm(c.url) != "" && norm(a.url) != norm(c.url)
    && one.tabs == [a] && two.tabs == [a, c]
  }

  /** How often x and y show a and c. */
  predicate Showing(norm: Norm, idx: OpenIndex, x: string, y: string, a: RestoreTab, c: RestoreTab, xa: nat, xc: nat,
                    ya: nat, yc: nat) {
    && idx.refs == [x, y] && x != y && x in idx.counts && y in idx.counts
    && Have(idx.counts[x], norm(a.url)) == xa && Have(idx.counts[x], norm(c.url)) == xc
    && Have(idx.counts[y], norm(a.url)) == ya && Have(idx.counts[y], norm(c.url)) == yc
  }

  lemma ExtendClaimed(norm: Norm, plan: RestorePlan, want: RestoreWindow, idx: OpenIndex, ref: string,
                      wanted: seq<RestoreTab>, missing: seq<RestoreTab>)
    requires Wanted(norm, want.tabs) == wanted != [] && ref in idx.counts
    requires Missing(norm, wanted, idx.counts[ref]) == missing
    ensures Extend(norm, plan, want, idx, Some(ref))
            == RestorePlan(plan.newWindows, plan.additions + Target(missing, ref),
                           plan.alreadyOpen + (|wanted| - |missing|))
  {
  }

  lemma ExtendTwice(norm: Norm, idx: OpenIndex, one: RestoreWindow, two: RestoreWindow, m1: string, m2: string,
                    w1: seq<RestoreTab>, w2: seq<RestoreTab>, missing: RestoreTab, first: RestorePlan)
    requires m1 in idx.counts && m2 in idx.counts && first == Extend(norm, EMPTY_PLAN, one, idx, Some(m1))
    requires Wanted(norm, one.tabs) == w1 != [] && Missing(norm, w1, idx.counts[m1]) == []
    requires Wanted(norm, two.tabs) == w2 != [] && Missing(norm, w2, idx.counts[m2]) == [missing]
    ensures Extend(norm, first, two, idx, Some(m2)) == RestorePlan([], [PlannedTab(missing, m2)], |w1| + |w2| - 1)
  {
    ExtendClaimed(norm, EMPTY_PLAN, one, idx, m1, w1, []);
    ExtendClaimed(norm, first, two, idx, m2, w2, [missing]);
    TargetOne(missing, m1);
    TargetOne(missing, m2);
  }

  lemma TopUpPlan(norm: Norm, idx: OpenIndex, one: RestoreWindow, two: RestoreWindow, m1: string, m2: string,
                  w1: seq<RestoreTab>, w2: seq<RestoreTab>, missing: RestoreTab)
    requires m1 in idx.counts && m2 in idx.counts
    requires ClaimFor(norm, one, idx, {}) == Some(m1) && ClaimFor(norm, two, idx, {m1}) == Some(m2)
    requires Wanted(norm, one.tabs) == w1 != [] && Missing(norm, w1, idx.counts[m1]) == []
    requires Wanted(norm, two.tabs) == w2 != [] && Missing(norm, w2, idx.counts[m2]) == [missing]
    ensures Plan(norm, [one, two], idx).plan == RestorePlan([], [PlannedTab(missing, m2)], |w1| + |w2| - 1)
  {
    TwoStored(norm, idx, one, two, m1, m2);
    ExtendTwice(norm, idx, one, two, m1, m2, w1, w2, missing, Extend(norm, EMPTY_PLAN, one, idx, Some(m1)));
  }

  lemma ClaimOne(norm: Norm, idx: OpenIndex, x: string, y: string, a: RestoreTab, one: RestoreWindow)
    requires norm(a.url) != "" && one.tabs == [a] && idx.refs == [x, y] && x in idx.counts && y in idx.counts
    requires Have(idx.counts[y], norm(a.url)) > 0
    ensures ClaimFor(norm, one, idx, {}) == Some(if Have(idx.counts[x], norm(a.url)) > 0 then x else y)
  {
    OneTab(norm, a, idx.counts[x]);
    OneTab(norm, a, idx.counts[y]);
    BestOfTwo(norm, [a], idx, {}, x, y);
  }

  lemma ClaimTwo(norm: Norm, idx: OpenIndex, x: string, y: string, a: RestoreTab, c: RestoreTab, two: RestoreWindow,
                 taken: string)
    requires norm(a.url) != "" && norm(c.url) != "" && norm(a.url) != norm(c.url) && two.tabs == [a, c]
    requires idx.refs == [x, y] && x != y && x in idx.counts && y in idx.counts && (taken == x || taken == y)
    requires var left := if taken == x then y else x;
      Have(idx.counts[left], norm(a.url)) > 0 || Have(idx.counts[left], norm(c.url)) > 0
    ensures ClaimFor(norm, two, idx, {taken}) == Some(if taken == x then y else x)
  {
    TwoTabs(norm, a, c, idx.counts[if taken == x then y else x]);
    BestOfTwo(norm, [a, c], idx, {taken}, x, y);
  }

  /** With a only in y and c only in x, {a} takes y and {a, c} takes x, which is topped up with a. */
  lemma FirstPlan(norm: Norm, idx: OpenIndex, x: string, y: string, a: RestoreTab, c: RestoreTab, one: RestoreWindow,
                  two: RestoreWindow)
    requires Overlap(norm, a, c, one, two) && Showing(norm, idx, x, y, a, c, 0, 1, 1, 0)
    ensures Plan(norm, [one, two], idx).plan == RestorePlan([], [PlannedTab(a, x)], 2)
  {
    ClaimOne(norm, idx, x, y, a, one);
    ClaimTwo(norm, idx, x, y, a, c, two, y);
    OneTab(norm, a, idx.counts[y]);
    TwoTabs(norm, a, c, idx.counts[x]);
    TopUpPlan(norm, idx, one, two, y, x, [a], [a, c], a);
  }

  /** With a in both and c in x, {a} takes x, the first of them, and c is missing from y. */
  lemma SecondPlan(norm: Norm, idx: OpenIndex, x: string, y: string, a: RestoreTab, c: RestoreTab,
                   one: RestoreWindow, two: RestoreWindow)
    requires Overlap(norm, a, c, one, two) && Showing(norm, idx, x, y, a, c, 1, 1, 1, 0)
    ensures Plan(norm, [one, two], idx).plan == RestorePlan([], [PlannedTab(c, y)], 2)
  {
    ClaimOne(norm, idx, x, y, a, one);
    ClaimTwo(norm, idx, x, y, a, c, two, x);
    OneTab(norm, a, idx.counts[x]);
    TwoTabs(norm, a, c, idx.counts[y]);
    TopUpPlan(norm, idx, one, two, x, y, [a], [a, c], c);
  }

  lemma IndexTwo(norm: Norm, s: OpenTab, t: OpenTab)
    requires norm(s.url) != "" && norm(t.url) != "" && s.windowRef != t.windowRef
    ensures var idx := Index(norm, [s, t]);
      && idx.refs == [s.windowRef, t.windowRef] && s.windowRef in idx.counts && t.windowRef in idx.counts
      && idx.counts[s.windowRef] == map[norm(s.url) := 1] && idx.counts[t.windowRef] == map[norm(t.url) := 1]
  {
    IndexSnoc(norm, [], s);
    IndexSnoc(norm, [s], t);
    assert [] + [s] == [s] && [s] + [t] == [s, t];
    var one := Index(norm, [s]);
    assert one.refs == [s.windowRef] && one.counts.Keys == {s.windowRef};
    assert one.counts[s.windowRef] == map[norm(s.url) := 1];
  }

  lemma TargetOne(t: RestoreTab, ref: string)
    ensures Target([], ref) == [] && Target([t], ref) == [PlannedTab(t, ref)]
  {
    assert [t][..0] == [];
  }

  lemma ExecuteOne(open: seq<OpenTab>, p: PlannedTab, n: nat, names: seq<string>)
    ensures Execute(open, RestorePlan([], [p], n), names) == open + [OpenTab(p.target, p.tab.url)]
  {
    AddedSnoc([], p);
    assert [] + [p] == [p];
    assert open + [OpenTab(p.target, p.tab.url)] + [] == open + [OpenTab(p.target, p.tab.url)];
  }

  /**
   Sharing a key breaks it: stored windows {a} and {a, c} over open windows [c] and [a]. The
   first plan tops [c] up with a; the second plan then gives that window to {a}, leaves {a, c}
   the other one, and creates c again. This happens for every two keys.
   */
  lemma OverlapBreaksIdempotence(norm: Norm, x: string, y: string, a: RestoreTab, c: RestoreTab, one: RestoreWindow,
                                 two: RestoreWindow)
    requires Overlap(norm, a, c, one, two) && x != y
    ensures var open := [OpenTab(x, c.url), OpenTab(y, a.url)];
      var plan := Plan(norm, [one, two], Index(norm, open)).plan;
      && !DisjointKeys(norm, [one, two]) && NewNames(open, []) && plan.newWindows == []
      && Plan(norm, [one, two], Index(norm, Execute(open, plan, []))).plan == RestorePlan([], [PlannedTab(c, y)], 2)
  {
    var s, t, added := OpenTab(x, c.url), OpenTab(y, a.url), OpenTab(x, a.url);
    var open := [s, t];
    OpenShows(norm, s, t, added, a, c);
    FirstPlan(norm, Index(norm, open), x, y, a, c, one, two);
    ExecuteOne(open, PlannedTab(a, x), 2, []);
    SecondPlan(norm, Index(norm, open + [added]), x, y, a, c, one, two);
    OverlapShares(norm, a, c, one, two);
  }

  lemma OpenShows(norm: Norm, s: OpenTab, t: OpenTab, added: OpenTab, a: RestoreTab, c: RestoreTab)
    requires norm(a.url) != "" && norm(c.url) != "" && norm(a.url) != norm(c.url) && s.windowRef != t.windowRef
    requires s.url == c.url && t.url == a.url && added == OpenTab(s.windowRef, a.url)
    ensures Showing(norm, Index(norm, [s, t]), s.windowRef, t.windowRef, a, c, 0, 1, 1, 0)
    ensures Showing(norm, Index(norm, [s, t] + [added]), s.windowRef, t.windowRef, a, c, 1, 1, 1, 0)
  {
    IndexTwo(norm, s, t);
    IndexSnoc(norm, [s, t], added);
  }

  lemma OverlapShares(norm: Norm, a: RestoreTab, c: RestoreTab, one: RestoreWindow, two: RestoreWindow)
    requires Overlap(norm, a, c, one, two)
    ensures !DisjointKeys(norm, [one, two])
  {
    var desired := [one, two];
    assert desired[0] == one && desired[1] == two;
    assert a in desired[0].tabs && a in desired[1].tabs;
  }
}
