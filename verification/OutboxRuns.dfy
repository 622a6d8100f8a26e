/**
 The outbox of Outbox.dfy, call by call, is the machine of Pipeline.dfy, so what is proved of
 every run of the machine holds of every sequence of calls to the class: once nothing is
 pending, the agent, applying what was sent, has every delta posted, one by one.
 */
module OutboxRuns {
  import opened Options
  import opened Protocol
  import opened LiveTables
  import opened Coalescing
  import opened Outbox
  import opened Pipeline
  import opened PipelineLimits

  /** The machine's state: the agent has applied what was sent to the rows it began with. */
  function SystemOf(b: OutboxState, first: Live, log: seq<Delta>, src: Source): System {
    System(b.pending, if b.flushing then Some(Saving(b.retrying)) else None, b.timer, b.mirror,
           DeliverAll(first, b.sent, src), first, log)
  }

  ghost predicate Settled(b: OutboxState) { b.mirror == b.pending && (b.retrying ==> b.flushing) }

  /** Nothing from elsewhere, and no eviction during a send. */
  ghost predicate Plain(trace: seq<System>, actions: seq<Action>)
    requires |trace| == |actions| + 1
  {
    forall i | 0 <= i < |actions| ::
      !actions[i].Reconcile? && !actions[i].Others? && (actions[i].Evict? ==> !InSending(trace[i]))
  }

  /** What one call appends to the history. */
  function Logged(call: Call): seq<Delta> { if call.Post? then [Unstamp(call.d)] else [] }

  ghost predicate Between(s: System, s': System, call: Call, trace: seq<System>, actions: seq<Action>, src: Source) {
    && Steps(trace, actions, src) && Plain(trace, actions) && trace[0] == s && trace[|actions|] == s'
    && forall a :: a in actions && a.Enqueue? ==> call.Post? && a.d == call.d
  }

  // ----- One call -----

  lemma {:induction false} DeliverAllConcat(l: Live, a: seq<StateBody>, b: seq<StateBody>, src: Source)
    ensures DeliverAll(l, a + b, src) == DeliverAll(DeliverAll(l, a, src), b, src)
  {
    if b == [] {
      assert a + b == a;
    } else {
      var n := |b| - 1;
      DeliverAllConcat(l, a, b[..n], src);
      assert (a + b)[..|a| + n] == a + b[..n];
    }
  }

  lemma FlushBetween(b: OutboxState, link: Link, b': OutboxState, first: Live, log: seq<Delta>, src: Source)
    returns (trace: seq<System>, actions: seq<Action>)
    requires Settled(b) && Flushes(b, link, b')
    ensures Settled(b')
    ensures Between(SystemOf(b, first, log, src), SystemOf(b', first, log, src), FlushNow, trace, actions, src)
  {
    var s := SystemOf(b, first, log, src);
    trace, actions := [s], [];
    if !b.flushing {
      if b.pending == EMPTY_STATE {
        if b.timer { trace, actions := [s, s.(timer := false)], [TimerRunsOut]; }
      } else {
        var batches :| var left := if Fails(batches, link) then b.pending else EMPTY_STATE;
          && IsSplit(batches, b.pending)
          && b' == OutboxState(left, false, true, Fails(batches, link), left, b.sent + Delivered(batches, link));
        trace, actions := FlushIsRun(s, batches, link, src);
        DeliverAllConcat(first, b.sent, Delivered(batches, link), src);
        SendsArePlain(trace, actions);
      }
    }
  }

  lemma SendsArePlain(trace: seq<System>, actions: seq<Action>)
    requires |trace| == |actions| + 1 && forall a :: a in actions ==> Sends(a)
    ensures Plain(trace, actions)
  {
    forall i | 0 <= i < |actions| ensures Sends(actions[i]) {
      assert actions[i] in actions;
    }
  }

  lemma PlainSnoc(t1: seq<System>, a1: seq<Action>, t2: seq<System>, a2: seq<Action>)
    requires |t1| == |a1| + 1 && |t2| == |a2| + 1 && t1[|a1|] == t2[0] && Plain(t1, a1) && Plain(t2, a2)
    ensures Plain(t1 + t2[1..], a1 + a2)
  {
    var t, a := t1 + t2[1..], a1 + a2;
    forall i | 0 <= i < |a|
      ensures !a[i].Reconcile? && !a[i].Others? && (a[i].Evict? ==> !InSending(t[i]))
    {
      if i >= |a1| { assert a[i] == a2[i-|a1|] && t[i] == t2[i-|a1|]; }
    }
  }

  lemma PostBetween(b: OutboxState, d: Delta, link: Link, b': OutboxState, first: Live, log: seq<Delta>, src: Source)
    returns (trace: seq<System>, actions: seq<Action>)
    requires Settled(b) && Called(b, Post(d), link, b')
    ensures Settled(b')
    ensures Between(SystemOf(b, first, log, src), SystemOf(b', first, log + [Unstamp(d)], src),
                    Post(d), trace, actions, src)
  {
    var s := SystemOf(b, first, log, src);
    var p := Put(b.pending, d);
    var b1 := b.(pending := p, mirror := p, timer := if Count(p) >= MAX_PENDING_BEFORE_FLUSH then b.timer else true);
    var s1 := SystemOf(b1, first, log + [Unstamp(d)], src);
    var t1, a1 := [s, s1], [Enqueue(d)];
    if Count(p) >= MAX_PENDING_BEFORE_FLUSH {
      var t2, a2 := FlushBetween(b1, link, b', first, log + [Unstamp(d)], src);
      trace, actions := Joined(t1, a1, t2, a2, src);
      PlainSnoc(t1, a1, t2, a2);
    } else {
      trace, actions := t1, a1;
    }
  }

  lemma TimerBetween(b: OutboxState, link: Link, b': OutboxState, first: Live, log: seq<Delta>, src: Source)
    returns (trace: seq<System>, actions: seq<Action>)
    requires Settled(b) && Called(b, TimerOut, link, b')
    ensures Settled(b')
    ensures Between(SystemOf(b, first, log, src), SystemOf(b', first, log, src), TimerOut, trace, actions, src)
  {
    var s := SystemOf(b, first, log, src);
    if b.flushing || b.pending == EMPTY_STATE {
      trace, actions := [s, s.(timer := false)], [TimerRunsOut];
    } else {
      assert Flushes(b, link, b');
      trace, actions := FlushBetween(b, link, b', first, log, src);
    }
  }

  /** Every call of the outbox is some steps of the machine, from the state before it to the state after. */
  lemma CallIsRun(b: OutboxState, call: Call, link: Link, b': OutboxState, first: Live, log: seq<Delta>, src: Source)
    returns (trace: seq<System>, actions: seq<Action>)
    requires Settled(b) && Called(b, call, link, b')
    ensures Settled(b')
    ensures Between(SystemOf(b, first, log, src), SystemOf(b', first, log + Logged(call), src),
                    call, trace, actions, src)
  {
    var s, s' := SystemOf(b, first, log, src), SystemOf(b', first, log + Logged(call), src);
    assert log + [] == log;
    match call
    case Post(d) => trace, actions := PostBetween(b, d, link, b', first, log, src);
    case TimerOut => trace, actions := TimerBetween(b, link, b', first, log, src);
    case FlushNow => trace, actions := FlushBetween(b, link, b', first, log, src);
    case WriteDone => trace, actions := [s, s'], [EndFlush];
    case Evicted => trace, actions := [s, s'], [Evict];
  }

  // ----- Every sequence of calls -----

  lemma {:induction false} StepsKeep(trace: seq<System>, actions: seq<Action>, scope: Scope, src: Source, n: nat)
    requires Steps(trace, actions, src) && Plain(trace, actions) && n < |trace|
    requires Inv(trace[0], scope, src) && forall a :: a in actions && a.Enqueue? ==> Within(a.d, scope)
    ensures Inv(trace[n], scope, src)
  {
    if n > 0 {
      StepsKeep(trace, actions, scope, src, n - 1);
      assert Next(trace[n-1], actions[n-1], trace[n], src);
      assert actions[n-1] in actions;
      StepInv(trace[n-1], actions[n-1], trace[n], scope, src);
    }
  }

  /** The states of an outbox from new, and the calls between them. */
  ghost predicate Calls(states: seq<OutboxState>, calls: seq<Call>, links: seq<Link>) {
    && |states| == |calls| + 1 == |links| + 1
    && states[0] == OutboxState(EMPTY_STATE, false, false, false, EMPTY_STATE, [])
    && forall i | 0 <= i < |calls| :: Called(states[i], calls[i], links[i], states[i+1])
  }

  /** Every delta posted, in order. */
  function Posted(calls: seq<Call>): seq<Delta> {
    if calls == [] then [] else Posted(calls[..|calls|-1]) + Logged(calls[|calls|-1])
  }

  lemma {:induction false} CallsKeep(states: seq<OutboxState>, calls: seq<Call>, links: seq<Link>,
                                     first: Live, scope: Scope, src: Source, n: nat)
    requires Calls(states, calls, links) && n < |states| && FitsLive(first, scope, src)
    requires forall c :: c in calls && c.Post? ==> Within(c.d, scope)
    ensures var s := SystemOf(states[n], first, Posted(calls[..n]), src);
      Settled(states[n]) && Inv(s, scope, src) && UnstampAll(s.log) == s.log
  {
    if n == 0 {
      InitInv(SystemOf(states[0], first, [], src), scope, src);
    } else {
      CallsKeep(states, calls, links, first, scope, src, n - 1);
      assert Called(states[n-1], calls[n-1], links[n-1], states[n]);
      assert calls[n-1] in calls;
      assert calls[..n][..n-1] == calls[..n-1];
      var log := Posted(calls[..n-1]);
      var trace, actions := CallIsRun(states[n-1], calls[n-1], links[n-1], states[n], first, log, src);
      StepsKeep(trace, actions, scope, src, |actions|);
      if calls[n-1].Post? { UnstampedSnoc(log, calls[n-1].d); } else { assert log + [] == log; }
    }
  }

  /**
   For every sequence of posts, timers, flushes, storage writes and evictions, over links that
   fail anywhere: whenever nothing is pending, applying what was sent, message by message, gives
   the rows that applying every delta posted, one by one, would have given.
   */
  lemma SentIsPosted(states: seq<OutboxState>, calls: seq<Call>, links: seq<Link>,
                     first: Live, scope: Scope, src: Source, n: nat)
    requires Calls(states, calls, links) && n < |states| && states[n].pending == EMPTY_STATE
    requires FitsLive(first, scope, src) && forall c :: c in calls && c.Post? ==> Within(c.d, scope)
    ensures EraseExpiry(DeliverAll(first, states[n].sent, src)) == EraseExpiry(Fold(first, Posted(calls[..n]), src))
  {
    CallsKeep(states, calls, links, first, scope, src, n);
    InvIsFold(SystemOf(states[n], first, Posted(calls[..n]), src), scope, src);
  }
}
