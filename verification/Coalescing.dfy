/**
 Why keeping only the last delta per key is enough: the algebra behind the outbox's
 coalescing (extension/src/background/outbox.ts) over the agent's upserts and removes
 (agent/crates/sr-agent/src/ingest.rs, server.rs).
 */
module Coalescing {
  import opened Options
  import opened Protocol
  import opened LiveTables

  /** The private flag of every tab key, which a browser fixes once per tab. */
  type Flags = string -> bool

  predicate Follows(d: Delta, flag: Flags) {
    d.Tab? && d.t.op == Upsert ==> d.t.isPrivate == flag(d.t.tabKey)
  }

  /**
   A cell on which the last delta alone decides. A window carries the reporting browser, since
   an upsert never rewrites that column; a tab is in the table its flag names and not in the
   other, since an upsert never clears the other table; and with private capture off no
   private row is left over, since an upsert would then neither write nor clear it.
   */
  predicate Fits(c: Cell, k: Key, flag: Flags, src: Source) {
    match k
    case WinKey(_) => c.WinCell? && (c.window.Some? ==> c.window.value.browser == src.browser)
    case TabKey(id) => c.TabCell? &&
      (if flag(id) then c.tab.None? && (c.secret.Some? ==> src.capturePrivate) else c.secret.None?)
    case GrpKey(_) => c.GrpCell?
  }

  predicate OfKind(c: Cell, k: Key) {
    (k.WinKey? <==> c.WinCell?) && (k.TabKey? <==> c.TabCell?)
  }

  lemma FitsStep(c: Cell, d: Delta, flag: Flags, src: Source)
    requires Fits(c, KeyOf(d), flag, src) && Follows(d, flag)
    ensures Fits(Step(c, d, src), KeyOf(d), flag, src)
  {
  }

  /** A later delta for a key makes an earlier one irrelevant. */
  lemma LastWins(c: Cell, earlier: Delta, later: Delta, flag: Flags, src: Source)
    requires KeyOf(earlier) == KeyOf(later) && Fits(c, KeyOf(later), flag, src)
    requires Follows(earlier, flag) && Follows(later, flag)
    ensures Step(Step(c, earlier, src), later, src) == Step(c, later, src)
  {
  }

  /** And only on such a cell: on any other, a remove and an upsert that cannot be coalesced exist. */
  lemma OnlyIfItFits(c: Cell, k: Key, flag: Flags, src: Source) returns (earlier: Delta, later: Delta)
    requires OfKind(c, k) && !Fits(c, k, flag, src)
    ensures KeyOf(earlier) == KeyOf(later) == k && Follows(earlier, flag) && Follows(later, flag)
    ensures Step(Step(c, earlier, src), later, src) != Step(c, later, src)
  {
    match k
    case WinKey(id) =>
      var w := WindowDelta(Remove, id, false, None, None, None, None, None, false);
      earlier, later := Win(w), Win(w.(op := Upsert));
    case TabKey(id) =>
      var t := TabDelta(Remove, id, "", None, None, None, None, None, false, false, false, None, flag(id), true);
      earlier, later := Tab(t, 0), Tab(t.(op := Upsert), 0);
    case GrpKey(id) =>
      var g := GroupDelta(Remove, id, "", None, None, false);
      earlier, later := Grp(g), Grp(g);
      assert false;
  }

  // ----- Expiry stamps -----

  /** The agent stamps a private row when it applies it, so tables are compared without the stamp. */
  function Unstamp(d: Delta): Delta { if d.Tab? then d.(expiresAt := 0) else d }

  function UnstampAll(ds: seq<Delta>): (r: seq<Delta>)
    ensures |r| == |ds| && forall i | 0 <= i < |ds| :: r[i] == Unstamp(ds[i])
  {
    seq(|ds|, i requires 0 <= i < |ds| => Unstamp(ds[i]))
  }

  /** Stamps all alike. */
  function Stamps(body: StateBody): (r: seq<int>)
    ensures |r| == |body.tabs|
  {
    seq(|body.tabs|, _ => 0)
  }

  function Erase(c: Cell): Cell {
    if c.TabCell? && c.secret.Some? then c.(secret := Some(c.secret.value.(expiresAt := 0))) else c
  }

  function EraseExpiry(l: Live): (r: Live)
    ensures r.windows == l.windows && r.tabs == l.tabs && r.groups == l.groups && r.apps == l.apps
    ensures r.secrets.Keys == l.secrets.Keys
  {
    l.(secrets := map k | k in l.secrets :: l.secrets[k].(expiresAt := 0))
  }

  lemma ReadErase(l: Live, k: Key)
    ensures Read(EraseExpiry(l), k) == Erase(Read(l, k))
  {
  }

  lemma EraseStep(c: Cell, d: Delta, src: Source)
    ensures Erase(Step(c, d, src)) == Step(Erase(c), Unstamp(d), src)
  {
  }

  lemma {:induction false} EraseFoldCell(c: Cell, ds: seq<Delta>, k: Key, src: Source)
    ensures Erase(FoldCell(c, ds, k, src)) == FoldCell(Erase(c), UnstampAll(ds), k, src)
  {
    if ds != [] {
      var n := |ds| - 1;
      EraseFoldCell(c, ds[..n], k, src);
      assert UnstampAll(ds)[..n] == UnstampAll(ds[..n]);
      EraseStep(FoldCell(c, ds[..n], k, src), ds[n], src);
    }
  }

  // ----- Sequences of deltas -----

  lemma {:induction false} FoldCellConcat(c: Cell, a: seq<Delta>, b: seq<Delta>, k: Key, src: Source)
    ensures FoldCell(c, a + b, k, src) == FoldCell(FoldCell(c, a, k, src), b, k, src)
  {
    if b == [] {
      assert a + b == a;
    } else {
      var n := |b| - 1;
      assert (a + b)[..|a| + n] == a + b[..n];
      FoldCellConcat(c, a, b[..n], k, src);
    }
  }

  lemma FoldCellSnoc(c: Cell, a: seq<Delta>, d: Delta, k: Key, src: Source)
    ensures FoldCell(c, a + [d], k, src)
            == if KeyOf(d) == k then Step(FoldCell(c, a, k, src), d, src) else FoldCell(c, a, k, src)
  {
    assert (a + [d])[..|a|] == a;
  }

  lemma {:induction false} FitsFold(c: Cell, ds: seq<Delta>, k: Key, flag: Flags, src: Source)
    requires Fits(c, k, flag, src) && forall d :: d in ds && KeyOf(d) == k ==> Follows(d, flag)
    ensures Fits(FoldCell(c, ds, k, src), k, flag, src)
  {
    if ds != [] {
      var n := |ds| - 1;
      assert ds[n] in ds;
      FitsFold(c, ds[..n], k, flag, src);
      if KeyOf(ds[n]) == k { FitsStep(FoldCell(c, ds[..n], k, src), ds[n], flag, src); }
    }
  }

  /** Repeating one delta for a key, among others, is applying it once or not at all. */
  lemma {:induction false} FoldRepeats(c: Cell, ds: seq<Delta>, only: Delta, flag: Flags, src: Source)
    requires Fits(c, KeyOf(only), flag, src) && Follows(only, flag)
    requires forall d :: d in ds && KeyOf(d) == KeyOf(only) ==> d == only
    ensures var r := FoldCell(c, ds, KeyOf(only), src);
      r == if only in ds then Step(c, only, src) else c
  {
    if ds != [] {
      var n := |ds| - 1;
      assert ds == ds[..n] + [ds[n]];
      assert ds[n] in ds;
      FoldRepeats(c, ds[..n], only, flag, src);
      LastWins(c, only, only, flag, src);
    }
  }

  lemma {:induction false} FoldAbsent(c: Cell, ds: seq<Delta>, k: Key, src: Source)
    requires forall d :: d in ds ==> KeyOf(d) != k
    ensures FoldCell(c, ds, k, src) == c
  {
    if ds != [] {
      assert ds[|ds|-1] in ds;
      FoldAbsent(c, ds[..|ds|-1], k, src);
    }
  }
}
