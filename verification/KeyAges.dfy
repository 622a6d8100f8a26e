/**
 When private keys are made (agent/crates/sr-agent/src/store/keys.rs): between two calls, and over
 whole runs of the store.
 */
module KeyAges {
  import opened Protocol
  import opened LiveTables
  import opened Crypto
  import opened Store
  import opened Sessions
  import opened StoreRuns
  import opened StoreSafety

  const THIRTY_DAYS := 30 * 24 * 3_600_000

  // ----- Two calls -----

  /**
   A key made, or found made, at one call is what a later one returns, tables untouched, until
   thirty days after it was made; from then on the later one makes another.
   */
  lemma SecondCall(t: Tables, now: int, dek1: Dek, later: int, dek2: Dek)
    requires OneActiveKey(t.keys)
    ensures var (t1, id, dek) := ActiveDek(t, now, dek1);
      var madeAt := if id in t.keys then t.keys[id].createdAt else now;
      && id in t1.keys && t1.keys[id].createdAt == madeAt
      && (later - madeAt < THIRTY_DAYS ==> ActiveDek(t1, later, dek2) == (t1, id, dek))
      && (later - madeAt >= THIRTY_DAYS ==>
            var (t2, id2, dek') := ActiveDek(t1, later, dek2); id2 !in t1.keys && id2 in t2.keys && dek' == dek2)
  {
    var (t1, id, dek) := ActiveDek(t, now, dek1);
    ActiveDekIs(t, now, dek1);
    OneUnretired(t1, id);
    ActiveDekIs(t1, later, dek2);
    assert id in Unretired(t1);
    forall i | Young(t1, i, later) ensures i == id {
      assert i in Unretired(t1);
    }
    if later - t1.keys[id].createdAt < THIRTY_DAYS { assert Young(t1, id, later); }
  }

  // ----- Over runs -----

  ghost predicate MakesKey(t: Tables, d: TabDelta, env: Env, src: Source)
    requires GoodEnv(env)
  {
    exists k :: k in IngestTab(t, d, env, src).keys && k !in t.keys
  }

  /** The moments at which the tabs of a message have a key made. */
  ghost function TabBirths(t: Tables, ts: seq<TabDelta>, envs: seq<Env>, src: Source): seq<int>
    requires |envs| == |ts| && forall e :: e in envs ==> GoodEnv(e)
  {
    if ts == [] then []
    else
      var n := |ts| - 1;
      assert envs[n] in envs;
      TabBirths(t, ts[..n], envs[..n], src)
      + if MakesKey(IngestTabs(t, ts[..n], envs[..n], src), ts[n], envs[n], src) then [envs[n].now] else []
  }

  ghost function EventBirths(t: Tables, e: Event): seq<int>
    requires Possible(t.snapshots, t.runs, e)
  {
    if e.Message? then TabBirths(IngestWindows(t, e.body.windows, e.src), e.body.tabs, e.envs, e.src) else []
  }

  ghost function Births(t: Tables, es: seq<Event>): seq<int>
    requires Runnable(t, es)
    decreases es
  {
    if es == [] then [] else EventBirths(t, es[0]) + Births(Next(t, es[0]), es[1..])
  }

  /** The key in use, if any, is the last that was made. */
  ghost predicate Dated(keys: map<int, KeyRow>, births: seq<int>) {
    && OneActiveKey(keys)
    && (births == [] ==> forall k :: k in keys ==> keys[k].retiredAt.Some?)
    && (births != [] ==>
          exists k :: k in keys && keys[k].retiredAt.None? && keys[k].createdAt == births[|births|-1])
  }

  predicate Spaced(births: seq<int>) {
    forall i :: 0 < i < |births| ==> births[i] - births[i-1] >= THIRTY_DAYS
  }

  /** No key was made in the thirty days before. */
  predicate Due(births: seq<int>, now: int) {
    births == [] || now - births[|births|-1] >= THIRTY_DAYS
  }

  /** A tab that is captured as a private one. */
  predicate Sealed(d: TabDelta, src: Source) { d.op == Upsert && d.isPrivate && src.capturePrivate }

  lemma TabStep(t: Tables, d: TabDelta, env: Env, src: Source, births: seq<int>)
    requires GoodEnv(env) && Dated(t.keys, births)
    ensures Dated(IngestTab(t, d, env, src).keys, births + if MakesKey(t, d, env, src) then [env.now] else [])
    ensures MakesKey(t, d, env, src) <==> Sealed(d, src) && Due(births, env.now)
  {
    assert births + [] == births;
    if Sealed(d, src) {
      CallStep(t, env.now, env.newDek, births);
      var t1 := ActiveDek(t, env.now, env.newDek).0;
      assert IngestTab(t, d, env, src).keys == t1.keys;
    } else {
      assert IngestTab(t, d, env, src).keys == t.keys;
    }
  }

  lemma CallStep(t: Tables, now: int, newDek: Dek, births: seq<int>)
    requires Dated(t.keys, births)
    ensures var t1 := ActiveDek(t, now, newDek).0;
      && Dated(t1.keys, births + if Due(births, now) then [now] else [])
      && (Due(births, now) <==> exists k :: k in t1.keys && k !in t.keys)
  {
    var (t1, id, dek) := ActiveDek(t, now, newDek);
    ActiveDekIs(t, now, newDek);
    OneUnretired(t1, id);
    DueIs(t, births, now);
    assert id in Unretired(t1);
    if Due(births, now) {
      assert id in t1.keys && id !in t.keys;
      assert (births + [now])[|births|] == now;
    } else {
      assert births + [] == births;
    }
  }

  lemma DueIs(t: Tables, births: seq<int>, now: int)
    requires Dated(t.keys, births)
    ensures Due(births, now) <==> forall i :: !Young(t, i, now)
  {
    if births != [] {
      var k :| k in t.keys && t.keys[k].retiredAt.None? && t.keys[k].createdAt == births[|births|-1];
      assert Young(t, k, now) <==> !Due(births, now);
    }
  }

  lemma SpacedMore(births: seq<int>, now: int)
    requires Spaced(births) && Due(births, now)
    ensures Spaced(births + [now])
  {
  }

  lemma {:induction false} TabsDated(t: Tables, ts: seq<TabDelta>, envs: seq<Env>, src: Source, births: seq<int>)
    requires |envs| == |ts| && (forall e :: e in envs ==> GoodEnv(e)) && Dated(t.keys, births) && Spaced(births)
    ensures Dated(IngestTabs(t, ts, envs, src).keys, births + TabBirths(t, ts, envs, src))
    ensures Spaced(births + TabBirths(t, ts, envs, src))
  {
    if ts == [] {
      assert births + [] == births;
    } else {
      var n := |ts| - 1;
      assert envs[n] in envs;
      TabsDated(t, ts[..n], envs[..n], src, births);
      var t1, before := IngestTabs(t, ts[..n], envs[..n], src), births + TabBirths(t, ts[..n], envs[..n], src);
      TabStep(t1, ts[n], envs[n], src, before);
      var more := if MakesKey(t1, ts[n], envs[n], src) then [envs[n].now] else [];
      assert births + TabBirths(t, ts, envs, src) == before + more;
      if MakesKey(t1, ts[n], envs[n], src) { SpacedMore(before, envs[n].now); } else { assert before + [] == before; }
    }
  }

  lemma {:induction false} WindowsKeepKeys(t: Tables, ws: seq<WindowDelta>, src: Source)
    ensures IngestWindows(t, ws, src).keys == t.keys
  {
    if ws != [] { WindowsKeepKeys(t, ws[..|ws|-1], src); }
  }

  lemma {:induction false} GroupsKeepKeys(t: Tables, gs: seq<GroupDelta>)
    ensures IngestGroups(t, gs).keys == t.keys
  {
    if gs != [] { GroupsKeepKeys(t, gs[..|gs|-1]); }
  }

  lemma MessageDated(t: Tables, e: Event, births: seq<int>)
    requires e.Message? && Possible(t.snapshots, t.runs, e) && Dated(t.keys, births) && Spaced(births)
    ensures Dated(Next(t, e).keys, births + EventBirths(t, e)) && Spaced(births + EventBirths(t, e))
  {
    var t1 := IngestWindows(t, e.body.windows, e.src);
    WindowsKeepKeys(t, e.body.windows, e.src);
    TabsDated(t1, e.body.tabs, e.envs, e.src, births);
    GroupsKeepKeys(IngestTabs(t1, e.body.tabs, e.envs, e.src), e.body.groups);
  }

  /** Anything but a message leaves the keys alone, or drops retired ones. */
  lemma OtherKeys(t: Tables, e: Event)
    requires !e.Message? && Possible(t.snapshots, t.runs, e)
    ensures Next(t, e).keys == if e.Collected? then Gc(t).keys else t.keys
  {
    match e
    case Watched(apps) =>
    case Taken(kind, now) => CopyKeepsKeys(t, kind, now);
    case Deleted(id) =>
    case Pruned(_, doomed) =>
    case Swept(now) =>
    case Purged =>
    case Collected =>
    case Begun(id, mode, at, pick) => CopyKeepsKeys(t, PreRestore, at.copied);
  }

  lemma CopyKeepsKeys(t: Tables, kind: Kind, now: int)
    ensures CreateFromLive(t, kind, now).0.keys == t.keys
  {
  }

  lemma GcDated(t: Tables, births: seq<int>)
    requires Dated(t.keys, births)
    ensures Dated(Gc(t).keys, births)
  {
    var keys := Gc(t).keys;
    assert forall k :: k in keys ==> k in t.keys && keys[k] == t.keys[k];
    assert forall k :: k in t.keys && t.keys[k].retiredAt.None? ==> k in keys;
  }

  lemma EventDated(t: Tables, e: Event, births: seq<int>)
    requires Possible(t.snapshots, t.runs, e) && Dated(t.keys, births) && Spaced(births)
    ensures Dated(Next(t, e).keys, births + EventBirths(t, e)) && Spaced(births + EventBirths(t, e))
  {
    if e.Message? {
      MessageDated(t, e, births);
    } else {
      OtherKeys(t, e);
      assert births + [] == births;
      if e.Collected? { GcDated(t, births); }
    }
  }

  lemma BirthsCons(t: Tables, es: seq<Event>, births: seq<int>)
    requires Runnable(t, es) && es != []
    ensures births + Births(t, es) == (births + EventBirths(t, es[0])) + Births(Next(t, es[0]), es[1..])
  {
  }

  lemma {:induction false} RunDated(t: Tables, es: seq<Event>, births: seq<int>)
    requires Runnable(t, es) && Dated(t.keys, births) && Spaced(births)
    ensures Dated(Run(t, es).keys, births + Births(t, es)) && Spaced(births + Births(t, es))
    decreases es
  {
    if es == [] {
      assert births + [] == births;
    } else {
      EventDated(t, es[0], births);
      RunDated(Next(t, es[0]), es[1..], births + EventBirths(t, es[0]));
      BirthsCons(t, es, births);
    }
  }

  /** Keys were made at these moments, and another is made exactly when it is due: thirty days after the last. */
  ghost predicate Paced(t: Tables, births: seq<int>, d: TabDelta, env: Env, src: Source)
    requires GoodEnv(env)
  {
    && (forall i :: 0 < i < |births| ==> births[i] - births[i-1] >= 30 * 24 * 3_600_000)
    && (MakesKey(t, d, env, src) <==>
          Sealed(d, src) && (births == [] || env.now - births[|births|-1] >= 30 * 24 * 3_600_000))
  }

  lemma NextKey(t: Tables, births: seq<int>, d: TabDelta, env: Env, src: Source)
    requires GoodEnv(env) && Dated(t.keys, births) && Spaced(births)
    ensures Paced(t, births, d, env, src)
  {
    TabStep(t, d, env, src, births);
  }

  lemma DatedFromStart(t: Tables, es: seq<Event>)
    requires Runnable(t, es) && Unretired(t) == {}
    ensures Dated(Run(t, es).keys, Births(t, es)) && Spaced(Births(t, es))
  {
    forall k | k in t.keys ensures t.keys[k].retiredAt.Some? {
      assert k !in Unretired(t);
    }
    RunDated(t, es, []);
    assert [] + Births(t, es) == Births(t, es);
  }

  /**
   In every run of the store from tables with no key in use, with clocks that may even jump, each
   key is made at least thirty days after the one before; and at its end an upsert of a captured
   private tab makes one exactly if none was made yet or the last one thirty days ago.
   */
  lemma KeysAreSpaced(t: Tables, es: seq<Event>, d: TabDelta, env: Env, src: Source)
    requires Runnable(t, es) && Unretired(t) == {} && GoodEnv(env)
    ensures Paced(Run(t, es), Births(t, es), d, env, src)
  {
    DatedFromStart(t, es);
    NextKey(Run(t, es), Births(t, es), d, env, src);
  }
}
