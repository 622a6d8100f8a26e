/**
 The trailing debounce with a ceiling (`debounce`, agent/crates/sr-agent/src/watcher/events.rs)
 over arrival times in milliseconds. Processing takes no time and the channel stays open.
 */
module Debounce {
  const DEBOUNCE := 2000
  const MAX_DEFER := 10000

  /** One signal, and the events `from .. to` it stands for. */
  datatype Signal = Signal(from: nat, to: nat, at: int)

  predicate Sorted(times: seq<int>) { forall i, j :: 0 <= i <= j < |times| ==> times[i] <= times[j] }

  /** The stream went quiet after the last event of the burst, or the burst reached its ceiling with it. */
  predicate Burst(times: seq<int>, s: Signal) {
    && s.from < s.to <= |times|
    && (forall i :: s.from < i < s.to ==> times[i] - times[i-1] <= DEBOUNCE)
    && (forall i :: s.from <= i < s.to - 1 ==> times[i] - times[s.from] < MAX_DEFER)
    && var last := times[s.to-1];
       if last - times[s.from] >= MAX_DEFER then s.at == last
       else s.at == last + DEBOUNCE && (s.to < |times| ==> times[s.to] - last >= DEBOUNCE)
  }

  /** Back-to-back bursts covering the first `n` events. */
  predicate Covers(times: seq<int>, signals: seq<Signal>, n: nat) {
    && (forall k :: 0 <= k < |signals| ==> Burst(times, signals[k]))
    && (forall k :: 0 <= k < |signals| - 1 ==> signals[k].to == signals[k+1].from)
    && (if signals == [] then n == 0 else signals[0].from == 0 && signals[|signals|-1].to == n)
  }

  /**
   Drains one burst: until quiet, or until the ceiling. `ties[i]` settles whether event i is
   received or times out when it arrives exactly as the wait runs out.
   */
  method Drain(times: seq<int>, ties: seq<bool>, first: nat) returns (s: Signal)
    requires Sorted(times) && |ties| == |times| && first < |times|
    ensures Burst(times, s) && s.from == first
  {
    var i := first + 1;
    var at := times[first] + DEBOUNCE;
    while i < |times| && (times[i] < at || (times[i] == at && ties[i]))
      invariant first < i <= |times| && at == times[i-1] + DEBOUNCE
      invariant forall j :: first < j < i ==> times[j] - times[j-1] <= DEBOUNCE
      invariant forall j :: first <= j < i ==> times[j] - times[first] < MAX_DEFER
    {
      i := i + 1;
      if times[i-1] - times[first] >= MAX_DEFER { return Signal(first, i, times[i-1]); }
      at := times[i-1] + DEBOUNCE;
    }
    s := Signal(first, i, at);
  }

  lemma CoversMore(times: seq<int>, signals: seq<Signal>, n: nat, s: Signal)
    requires Covers(times, signals, n) && Burst(times, s) && s.from == n
    ensures Covers(times, signals + [s], s.to)
  {
  }

  /** One signal per burst, for as long as there are events. */
  method Run(times: seq<int>, ties: seq<bool>) returns (signals: seq<Signal>)
    requires Sorted(times) && |ties| == |times|
    ensures Covers(times, signals, |times|)
  {
    signals := [];
    var i := 0;
    while i < |times|
      invariant 0 <= i <= |times| && Covers(times, signals, i)
    {
      var s := Drain(times, ties, i);
      CoversMore(times, signals, i, s);
      signals := signals + [s];
      i := s.to;
    }
  }

  /** A signal comes no earlier than any event it stands for, and less than twelve seconds after. */
  lemma SignalFollowsSoon(times: seq<int>, s: Signal, i: nat)
    requires Sorted(times) && Burst(times, s) && s.from <= i < s.to
    ensures times[i] <= s.at < times[i] + 12_000
  {
    if s.to - 1 > s.from {
      assert times[s.to-2] - times[s.from] < MAX_DEFER;
      assert times[s.to-1] - times[s.to-2] <= DEBOUNCE;
    }
  }

  lemma {:induction false} Index(times: seq<int>, signals: seq<Signal>, n: nat, i: nat) returns (k: nat)
    requires Covers(times, signals, n) && i < n
    ensures k < |signals| && signals[k].from <= i < signals[k].to
  {
    k := |signals| - 1;
    if i < signals[k].from {
      k := Index(times, signals[..k], signals[k].from, i);
    }
  }

  lemma {:induction false} FromsRise(times: seq<int>, signals: seq<Signal>, n: nat, j: nat, k: nat)
    requires Covers(times, signals, n) && j < k < |signals|
    ensures signals[j].to <= signals[k].from
    decreases k - j
  {
    if j + 1 < k {
      FromsRise(times, signals, n, j + 1, k);
      assert Burst(times, signals[j+1]);
    }
  }

  /** Every event belongs to exactly one burst and is signalled in time. */
  lemma EachEventOnce(times: seq<int>, signals: seq<Signal>, i: nat)
    requires Sorted(times) && Covers(times, signals, |times|) && i < |times|
    ensures exists k :: 0 <= k < |signals| && signals[k].from <= i < signals[k].to
                        && times[i] <= signals[k].at < times[i] + 12_000
    ensures forall j, k :: 0 <= j < k < |signals| ==>
              !(signals[j].from <= i < signals[j].to && signals[k].from <= i < signals[k].to)
  {
    var k := Index(times, signals, |times|, i);
    SignalFollowsSoon(times, signals[k], i);
    forall j, k | 0 <= j < k < |signals|
      ensures !(signals[j].from <= i < signals[j].to && signals[k].from <= i < signals[k].to)
    {
      FromsRise(times, signals, |times|, j, k);
    }
  }

  /** Two signals are never closer than the quiet period. */
  lemma SignalsSpaced(times: seq<int>, signals: seq<Signal>, k: nat)
    requires Sorted(times) && Covers(times, signals, |times|) && k + 1 < |signals|
    ensures signals[k+1].at - signals[k].at >= 2_000
  {
    var a, b := signals[k], signals[k+1];
    assert Burst(times, a) && Burst(times, b);
    assert a.at <= times[b.from];
  }

  /**
   A stream that never goes quiet is still signalled: ten seconds or more after the first event of
   each burst but the last, with its last event, and again in less than fourteen seconds.
   */
  lemma SteadyStream(times: seq<int>, signals: seq<Signal>, k: nat)
    requires Sorted(times) && Covers(times, signals, |times|) && k + 1 < |signals|
    requires forall i :: 0 < i < |times| ==> times[i] - times[i-1] < DEBOUNCE
    ensures signals[k+1].at - signals[k].at < 14_000
    ensures signals[k].at == times[signals[k].to - 1] && signals[k].at - times[signals[k].from] >= 10_000
  {
    var a, b := signals[k], signals[k+1];
    assert Burst(times, a) && Burst(times, b);
    assert times[b.from] - times[a.to-1] < DEBOUNCE;
    SignalFollowsSoon(times, b, b.from);
  }

  predicate Untied(times: seq<int>) { forall i :: 0 < i < |times| ==> times[i] - times[i-1] != DEBOUNCE }

  lemma NoLonger(times: seq<int>, a: Signal, b: Signal)
    requires Sorted(times) && Untied(times) && Burst(times, a) && Burst(times, b) && a.from == b.from
    ensures b.to <= a.to
  {
    var last := times[a.to-1];
    assert a.to < |times| ==> times[a.to] - last != DEBOUNCE;
  }

  lemma SameBurst(times: seq<int>, a: Signal, b: Signal)
    requires Sorted(times) && Untied(times) && Burst(times, a) && Burst(times, b) && a.from == b.from
    ensures a == b
  {
    NoLonger(times, a, b);
    NoLonger(times, b, a);
  }

  lemma {:induction false} SameAt(times: seq<int>, a: seq<Signal>, b: seq<Signal>, k: nat)
    requires Sorted(times) && Untied(times)
    requires Covers(times, a, |times|) && Covers(times, b, |times|) && k < |a| && k < |b|
    ensures a[k] == b[k]
  {
    if k > 0 {
      SameAt(times, a, b, k - 1);
      assert a[k-1].to == a[k-1+1].from && b[k-1].to == b[k-1+1].from;
    }
    SameBurst(times, a[k], b[k]);
  }

  lemma LeavesMore(times: seq<int>, signals: seq<Signal>, k: nat)
    requires Covers(times, signals, |times|) && k + 1 < |signals|
    ensures signals[k].to < |times|
  {
    assert Burst(times, signals[k+1]);
  }

  lemma NoFewer(times: seq<int>, a: seq<Signal>, b: seq<Signal>)
    requires Sorted(times) && Untied(times)
    requires Covers(times, a, |times|) && Covers(times, b, |times|)
    ensures |b| <= |a|
  {
    if a != [] && |a| < |b| {
      var n := |a| - 1;
      LeavesMore(times, b, n);
      SameAt(times, a, b, n);
      assert false;
    }
    assert a == [] ==> |b| == 0 || Burst(times, b[0]);
  }

  /** Without exact ties the bursts are determined, so the specification leaves the method no choice. */
  lemma OnlyOneWay(times: seq<int>, a: seq<Signal>, b: seq<Signal>)
    requires Sorted(times) && Untied(times)
    requires Covers(times, a, |times|) && Covers(times, b, |times|)
    ensures a == b
  {
    NoFewer(times, a, b);
    NoFewer(times, b, a);
    forall k | 0 <= k < |a| ensures a[k] == b[k] {
      SameAt(times, a, b, k);
    }
  }
}
