/** What one agent run still owes its browsers: `PendingRestore` (agent/crates/sr-agent/src/server.rs). */
module OfferPending {
  import opened Options

  datatype Selection = Selection(
    windows: set<string>, tabs: set<string>, declined: bool, restorePrivate: bool, privateTabs: set<string>)

  const DECLINED := Selection({}, {}, true, false, {})

  datatype Pending = Pending(snapshotId: Option<int>, offered: set<string>, selection: Option<Selection>,
                             awaitingReview: bool)

  function ClaimKey(browser: string, profile: string): string { browser + "\U{0001}" + profile }

  /** Two browsers without the separator in their names never share a claim. */
  lemma ClaimKeyInjective(b1: string, p1: string, b2: string, p2: string)
    requires '\U{0001}' !in b1 && '\U{0001}' !in b2
    requires ClaimKey(b1, p1) == ClaimKey(b2, p2)
    ensures b1 == b2 && p1 == p2
  {
    var k := ClaimKey(b1, p1);
    assert k[|b1|] == '\U{0001}' && k[|b2|] == '\U{0001}';
    assert forall i :: 0 <= i < |b1| ==> k[i] == b1[i] && k[i] in b1;
    assert forall i :: 0 <= i < |b2| ==> k[i] == b2[i] && k[i] in b2;
    assert |b1| == |b2|;
    assert k[..|b1|] == b1 && k[..|b2|] == b2;
    assert k[|b1|+1..] == p1 && k[|b2|+1..] == p2;
  }

  predicate Refuses(p: Pending) { p.selection.Some? && p.selection.value.declined }

  datatype Verdict = Deferred | Refused | NothingOwed | Claimed(snapshotId: int)

  /** The first lock section of `maybe_offer_restore`: defer, refuse, or claim. */
  function Consult(p: Pending, browser: string, profile: string): (Pending, Verdict) {
    if p.awaitingReview then (p, Deferred)
    else if Refuses(p) then (p, Refused)
    else if p.snapshotId.None? || ClaimKey(browser, profile) in p.offered then (p, NothingOwed)
    else (p.(offered := p.offered + {ClaimKey(browser, profile)}), Claimed(p.snapshotId.value))
  }

  class PendingRestore {
    var snapshotId: Option<int>
    var offered: set<string>
    var selection: Option<Selection>
    var awaitingReview: bool

    function View(): Pending
      reads this
    {
      Pending(snapshotId, offered, selection, awaitingReview)
    }

    constructor (id: Option<int>)
      ensures View() == Pending(id, {}, None, false)
    {
      snapshotId, offered, selection, awaitingReview := id, {}, None, false;
    }

    /** For a run that will open a review window: with nothing to restore there is no review to wait for. */
    constructor AwaitingReview(id: Option<int>)
      ensures View() == Pending(id, {}, None, id.Some?)
    {
      snapshotId, offered, selection, awaitingReview := id, {}, None, id.Some?;
    }

    method ReviewDismissed()
      modifies this`awaitingReview, this`selection
      ensures View() == old(View()).(awaitingReview := false, selection := Some(DECLINED))
    {
      awaitingReview := false;
      selection := Some(DECLINED);
    }

    method SetSelection(sel: Selection)
      modifies this`awaitingReview, this`selection
      ensures View() == old(View()).(awaitingReview := false, selection := Some(sel))
    {
      selection := Some(sel);
      awaitingReview := false;
    }

    method Claim(browser: string, profile: string) returns (id: Option<int>)
      modifies this`offered
      ensures id == if ClaimKey(browser, profile) in old(offered) then None else snapshotId
      ensures offered == if id.Some? then old(offered) + {ClaimKey(browser, profile)} else old(offered)
    {
      if snapshotId.None? { return None; }
      if ClaimKey(browser, profile) in offered { return None; }
      offered := offered + {ClaimKey(browser, profile)};
      id := snapshotId;
    }

    /** One hello or one deferred push, under the lock. The refusal is read before the claim. */
    method ConsultPending(browser: string, profile: string) returns (verdict: Verdict, held: Option<Selection>)
      modifies this`offered
      ensures (View(), verdict) == Consult(old(View()), browser, profile)
      ensures verdict.Claimed? ==> held == selection
    {
      held := None;
      if awaitingReview { return Deferred, None; }
      if selection.Some? && selection.value.declined { return Refused, None; }
      var id := Claim(browser, profile);
      match id
      case Some(i) => return Claimed(i), selection;
      case None =>
        assert View() == old(View());
        return NothingOwed, None;
    }
  }
}
