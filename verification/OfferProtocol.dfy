/**
 The restore-offer protocol under every interleaving (agent/crates/sr-agent/src/server.rs,
 ui/mod.rs): connection threads and the user-interface thread, each lock section one step.
 */
module OfferProtocol {
  import opened Options
  import opened OfferPending

  /** A registered connection: it keeps the profile of the message that registered it. */
  datatype Conn = Conn(id: nat, browser: string, profile: string)

  /** What a thread holds between claiming an offer and building it, and the connection it is for. */
  datatype Owed = Owed(to: nat, browser: string, profile: string, snapshotId: int, selection: Option<Selection>)

  datatype Phase = Reading | Consulting(browser: string, profile: string) | Building(ticket: nat, owed: Owed)

  /** `named` is whether a message of this connection has said which browser it is from. */
  datatype Thread = Thread(named: bool, phase: Phase)

  datatype Ui =
    | Resting
    | Answered
    | Pushing(targets: seq<Conn>, next: nat)
    | PushBuilding(targets: seq<Conn>, next: nat, ticket: nat, owed: Owed)

  /** History: what was claimed, and what the pending state was when it was. */
  datatype Claim = Claim(owed: Owed, before: Pending)

  /** History: which claim an offer came from. */
  datatype Offer = Offer(ticket: nat, owed: Owed)

  datatype Sys = Sys(
    pending: Pending, conns: seq<Conn>, threads: map<nat, Thread>, ui: Ui,
    waiting: set<nat>, claims: seq<Claim>, offers: seq<Offer>)

  datatype Step =
    | Accept(c: nat)
    | Receive(c: nat, browser: Option<string>, registerAs: string, dispatchAs: string, hello: bool)
    | Ask(c: nat)
    | Build(c: nat, sent: bool)
    | Close(c: nat)
    | Answer(selection: Selection, neverAgain: bool)
    | Dismiss
    | List
    | Push
    | PushBuild(sent: bool)

  function Initial(snapshotId: Option<int>, review: bool): Sys {
    Sys(Pending(snapshotId, {}, None, review && snapshotId.Some?), [], map[], Resting, {}, [], [])
  }

  predicate Registered(s: Sys, c: nat) { exists conn :: conn in s.conns && conn.id == c }

  predicate Enabled(s: Sys, step: Step) {
    match step
    case Accept(c) => c !in s.threads && forall conn :: conn in s.conns ==> conn.id != c
    case Receive(c, _, _, _, _) => c in s.threads && s.threads[c].phase.Reading?
    case Ask(c) => c in s.threads && s.threads[c].phase.Consulting?
    case Build(c, _) => c in s.threads && s.threads[c].phase.Building?
    case Close(c) => c in s.threads && s.threads[c].phase.Reading?
    case Answer(_, _) => s.ui.Resting?
    case Dismiss => s.ui.Resting?
    case List => s.ui.Answered?
    case Push => s.ui.Pushing?
    case PushBuild(_) => s.ui.PushBuilding?
  }

  function Without(conns: seq<Conn>, c: nat): (r: seq<Conn>)
    ensures forall conn :: conn in r <==> conn in conns && conn.id != c
  {
    if conns == [] then []
    else if conns[0].id == c then Without(conns[1..], c)
    else [conns[0]] + Without(conns[1..], c)
  }

  /** A message is read: the connection registers if it can and has not, and a hello goes on to ask. */
  function Received(s: Sys, c: nat, browser: Option<string>, registerAs: string, dispatchAs: string, hello: bool): Sys
    requires c in s.threads
  {
    var th := s.threads[c];
    var phase := if hello then Consulting(if browser.Some? then browser.value else "unknown", dispatchAs) else Reading;
    s.(threads := s.threads[c := Thread(th.named || browser.Some?, phase)],
       conns := if browser.Some? && !th.named then s.conns + [Conn(c, browser.value, registerAs)] else s.conns)
  }

  function Asked(s: Sys, c: nat): Sys
    requires c in s.threads && s.threads[c].phase.Consulting?
  {
    var th := s.threads[c];
    var (pending, verdict) := Consult(s.pending, th.phase.browser, th.phase.profile);
    match verdict
    case Claimed(id) =>
      var owed := Owed(c, th.phase.browser, th.phase.profile, id, s.pending.selection);
      s.(pending := pending, claims := s.claims + [Claim(owed, s.pending)],
         threads := s.threads[c := th.(phase := Building(|s.claims|, owed))])
    case Deferred => s.(waiting := s.waiting + {c}, threads := s.threads[c := th.(phase := Reading)])
    case _ => s.(threads := s.threads[c := th.(phase := Reading)])
  }

  function Pushed(s: Sys): Sys
    requires s.ui.Pushing?
  {
    var ui := s.ui;
    if ui.next >= |ui.targets| then s.(ui := Resting)
    else
      var target := ui.targets[ui.next];
      var (pending, verdict) := Consult(s.pending, target.browser, target.profile);
      if verdict.Claimed? then
        var owed := Owed(target.id, target.browser, target.profile, verdict.snapshotId, s.pending.selection);
        s.(pending := pending, claims := s.claims + [Claim(owed, s.pending)],
           ui := PushBuilding(ui.targets, ui.next + 1, |s.claims|, owed))
      else s.(ui := Pushing(ui.targets, ui.next + 1))
  }

  function Next(s: Sys, step: Step): Sys
    requires Enabled(s, step)
  {
    match step
    case Accept(c) => s.(threads := s.threads[c := Thread(false, Reading)])
    case Receive(c, browser, registerAs, dispatchAs, hello) => Received(s, c, browser, registerAs, dispatchAs, hello)
    case Ask(c) => Asked(s, c)
    case Build(c, sent) =>
      var th := s.threads[c];
      s.(threads := s.threads[c := th.(phase := Reading)],
         offers := if sent then s.offers + [Offer(th.phase.ticket, th.phase.owed)] else s.offers)
    case Close(c) => s.(threads := s.threads - {c}, conns := Without(s.conns, c), waiting := s.waiting - {c})
    case Answer(selection, neverAgain) =>
      s.(pending := s.pending.(awaitingReview := false, selection := Some(selection)),
         ui := if neverAgain || selection.declined then Resting else Answered)
    case Dismiss => s.(pending := s.pending.(awaitingReview := false, selection := Some(DECLINED)), ui := Answered)
    case List => s.(ui := Pushing(s.conns, 0))
    case Push => Pushed(s)
    case PushBuild(sent) =>
      s.(ui := Pushing(s.ui.targets, s.ui.next),
         offers := if sent then s.offers + [Offer(s.ui.ticket, s.ui.owed)] else s.offers)
  }

  // ----- Claims -----

  function KeyOf(owed: Owed): string { ClaimKey(owed.browser, owed.profile) }

  predicate ClaimsDistinct(claims: seq<Claim>) {
    forall i, j :: 0 <= i < j < |claims| ==> KeyOf(claims[i].owed) != KeyOf(claims[j].owed)
  }

  /** A claim is made with no review open and no refusal in force, and takes the selection as it stands. */
  predicate FairClaim(c: Claim) {
    && !c.before.awaitingReview && !Refuses(c.before)
    && c.owed.selection == c.before.selection && c.before.snapshotId == Some(c.owed.snapshotId)
  }

  predicate ClaimsInv(s: Sys) {
    && ClaimsDistinct(s.claims)
    && (forall c :: c in s.claims ==> FairClaim(c))
    && (forall i :: 0 <= i < |s.claims| ==> KeyOf(s.claims[i].owed) in s.pending.offered)
    && (forall k :: k in s.pending.offered ==> exists i :: 0 <= i < |s.claims| && KeyOf(s.claims[i].owed) == k)
  }

  // ----- Tickets -----

  predicate Ticket(s: Sys, ticket: nat, owed: Owed) {
    ticket < |s.claims| && s.claims[ticket].owed == owed
  }

  predicate Offered(s: Sys, ticket: nat) {
    exists i :: 0 <= i < |s.offers| && s.offers[i].ticket == ticket
  }

  predicate ThreadTickets(s: Sys) {
    && (forall c :: c in s.threads && s.threads[c].phase.Building?
          ==> Ticket(s, s.threads[c].phase.ticket, s.threads[c].phase.owed) && !Offered(s, s.threads[c].phase.ticket))
    && (forall c, d :: c in s.threads && d in s.threads && c != d
                        && s.threads[c].phase.Building? && s.threads[d].phase.Building?
          ==> s.threads[c].phase.ticket != s.threads[d].phase.ticket)
  }

  predicate UiTicket(s: Sys) {
    s.ui.PushBuilding? ==>
      && Ticket(s, s.ui.ticket, s.ui.owed) && !Offered(s, s.ui.ticket)
      && forall c :: c in s.threads && s.threads[c].phase.Building? ==> s.threads[c].phase.ticket != s.ui.ticket
  }

  predicate OffersInv(s: Sys) {
    && (forall i :: 0 <= i < |s.offers| ==> Ticket(s, s.offers[i].ticket, s.offers[i].owed))
    && (forall i, j :: 0 <= i < j < |s.offers| ==> s.offers[i].ticket != s.offers[j].ticket)
  }

  // ----- Registration -----

  /** Exactly the connections that have named their browser are registered, each once. */
  predicate RegisteredInv(s: Sys) {
    && (forall conn :: conn in s.conns ==> conn.id in s.threads && s.threads[conn.id].named)
    && (forall c :: c in s.threads && s.threads[c].named ==> Registered(s, c))
    && (forall c :: c in s.waiting ==> c in s.threads)
  }

  // ----- Pushing -----

  /** While a confirmed answer is being pushed, every target reached so far has its claim. */
  predicate PushInv(s: Sys) {
    && (s.ui.Pushing? || s.ui.PushBuilding? || s.ui.Answered? ==> !s.pending.awaitingReview)
    && (s.ui.Pushing? || s.ui.PushBuilding? ==>
          && s.ui.next <= |s.ui.targets|
          && (!Refuses(s.pending) && s.pending.snapshotId.Some? ==>
                forall i :: 0 <= i < s.ui.next ==>
                  ClaimKey(s.ui.targets[i].browser, s.ui.targets[i].profile) in s.pending.offered))
  }

  predicate Inv(s: Sys) {
    ClaimsInv(s) && ThreadTickets(s) && UiTicket(s) && OffersInv(s) && RegisteredInv(s) && PushInv(s)
  }

  lemma InitialInv(snapshotId: Option<int>, review: bool)
    ensures Inv(Initial(snapshotId, review))
  {
  }

  // ----- Every step keeps the invariant -----

  lemma ClaimKept(s: Sys, s': Sys, to: nat, browser: string, profile: string)
    requires ClaimsInv(s)
    requires var (pending, verdict) := Consult(s.pending, browser, profile);
      && s'.pending == pending
      && s'.claims == if verdict.Claimed? then
           s.claims + [Claim(Owed(to, browser, profile, verdict.snapshotId, s.pending.selection), s.pending)]
         else s.claims
    ensures ClaimsInv(s')
  {
    var (_, verdict) := Consult(s.pending, browser, profile);
    if verdict.Claimed? {
      var claim := Claim(Owed(to, browser, profile, verdict.snapshotId, s.pending.selection), s.pending);
      assert KeyOf(claim.owed) == ClaimKey(browser, profile) && FairClaim(claim);
      forall i | 0 <= i < |s.claims| ensures KeyOf(s.claims[i].owed) != KeyOf(claim.owed) {
        assert KeyOf(s.claims[i].owed) in s.pending.offered;
      }
      forall k | k in s'.pending.offered ensures exists i :: 0 <= i < |s'.claims| && KeyOf(s'.claims[i].owed) == k {
        if k in s.pending.offered {
          var i :| 0 <= i < |s.claims| && KeyOf(s.claims[i].owed) == k;
          assert s'.claims[i] == s.claims[i];
        } else {
          assert s'.claims[|s.claims|] == claim;
        }
      }
    }
  }

  lemma ClaimsStep(s: Sys, step: Step)
    requires ClaimsInv(s) && Enabled(s, step)
    ensures ClaimsInv(Next(s, step))
  {
    match step
    case Ask(c) => ClaimKept(s, Next(s, step), c, s.threads[c].phase.browser, s.threads[c].phase.profile);
    case Push =>
      if s.ui.next < |s.ui.targets| {
        ClaimKept(s, Next(s, step), s.ui.targets[s.ui.next].id, s.ui.targets[s.ui.next].browser,
                  s.ui.targets[s.ui.next].profile);
      }
    case _ =>
  }

  /** A ticket just issued is held by nobody else and has not been offered. */
  lemma NewTicket(s: Sys)
    requires ThreadTickets(s) && UiTicket(s) && OffersInv(s)
    ensures !Offered(s, |s.claims|)
    ensures forall c :: c in s.threads && s.threads[c].phase.Building? ==> s.threads[c].phase.ticket != |s.claims|
    ensures s.ui.PushBuilding? ==> s.ui.ticket != |s.claims|
  {
  }

  lemma TicketsStep(s: Sys, step: Step)
    requires ThreadTickets(s) && UiTicket(s) && OffersInv(s) && Enabled(s, step)
    ensures ThreadTickets(Next(s, step)) && UiTicket(Next(s, step)) && OffersInv(Next(s, step))
  {
    NewTicket(s);
    match step
    case Ask(c) => TicketsAsk(s, c);
    case Build(c, sent) => TicketsBuild(s, c, sent);
    case Push => TicketsPush(s);
    case PushBuild(sent) => TicketsPushBuild(s, sent);
    case _ =>
  }

  lemma TicketsAsk(s: Sys, c: nat)
    requires ThreadTickets(s) && UiTicket(s) && OffersInv(s) && Enabled(s, Ask(c))
    ensures var s' := Asked(s, c); ThreadTickets(s') && UiTicket(s') && OffersInv(s')
  {
    NewTicket(s);
    var s' := Asked(s, c);
    assert s'.offers == s.offers && s'.ui == s.ui && s.claims <= s'.claims;
    assert forall d :: d in s.threads && d != c ==> s'.threads[d] == s.threads[d];
    forall t, o | Ticket(s, t, o) ensures Ticket(s', t, o) { }
  }

  lemma TicketsPush(s: Sys)
    requires ThreadTickets(s) && UiTicket(s) && OffersInv(s) && Enabled(s, Push)
    ensures var s' := Pushed(s); ThreadTickets(s') && UiTicket(s') && OffersInv(s')
  {
    NewTicket(s);
    var s' := Pushed(s);
    assert s'.offers == s.offers && s'.threads == s.threads && s.claims <= s'.claims;
    forall t, o | Ticket(s, t, o) ensures Ticket(s', t, o) { }
  }

  lemma TicketsBuild(s: Sys, c: nat, sent: bool)
    requires ThreadTickets(s) && UiTicket(s) && OffersInv(s) && Enabled(s, Build(c, sent))
    ensures var s' := Next(s, Build(c, sent)); ThreadTickets(s') && UiTicket(s') && OffersInv(s')
  {
    var s' := Next(s, Build(c, sent));
    assert s'.claims == s.claims && s'.ui == s.ui;
    assert forall d :: d in s.threads && d != c ==> s'.threads[d] == s.threads[d];
    var t := s.threads[c].phase.ticket;
    forall u | Offered(s', u) ensures Offered(s, u) || u == t {
      var i :| 0 <= i < |s'.offers| && s'.offers[i].ticket == u;
      if i < |s.offers| { assert s.offers[i].ticket == u; }
    }
  }

  lemma TicketsPushBuild(s: Sys, sent: bool)
    requires ThreadTickets(s) && UiTicket(s) && OffersInv(s) && Enabled(s, PushBuild(sent))
    ensures var s' := Next(s, PushBuild(sent)); ThreadTickets(s') && UiTicket(s') && OffersInv(s')
  {
    var s' := Next(s, PushBuild(sent));
    assert s'.claims == s.claims && s'.threads == s.threads;
    var t := s.ui.ticket;
    forall u | Offered(s', u) ensures Offered(s, u) || u == t {
      var i :| 0 <= i < |s'.offers| && s'.offers[i].ticket == u;
      if i < |s.offers| { assert s.offers[i].ticket == u; }
    }
  }

  lemma RegisteredReceive(s: Sys, c: nat, browser: Option<string>, registerAs: string, dispatchAs: string, hello: bool)
    requires RegisteredInv(s) && c in s.threads && s.threads[c].phase.Reading?
    ensures RegisteredInv(Received(s, c, browser, registerAs, dispatchAs, hello))
  {
    var s' := Received(s, c, browser, registerAs, dispatchAs, hello);
    forall conn | conn in s.conns ensures conn in s'.conns { }
    if browser.Some? && !s.threads[c].named { assert Conn(c, browser.value, registerAs) in s'.conns; }
    forall d | d in s'.threads && s'.threads[d].named ensures Registered(s', d) {
      if d in s.threads && s.threads[d].named {
        var conn :| conn in s.conns && conn.id == d;
        assert conn in s'.conns;
      }
    }
  }

  lemma RegisteredClose(s: Sys, c: nat)
    requires RegisteredInv(s) && Enabled(s, Close(c))
    ensures RegisteredInv(Next(s, Close(c)))
  {
    var s' := Next(s, Close(c));
    forall d | d in s'.threads && s'.threads[d].named ensures Registered(s', d) {
      var conn :| conn in s.conns && conn.id == d;
      assert conn in s'.conns;
    }
  }

  lemma RegisteredStep(s: Sys, step: Step)
    requires RegisteredInv(s) && Enabled(s, step)
    ensures RegisteredInv(Next(s, step))
  {
    match step
    case Receive(c, browser, registerAs, dispatchAs, hello) =>
      RegisteredReceive(s, c, browser, registerAs, dispatchAs, hello);
    case Close(c) => RegisteredClose(s, c);
    case _ =>
      var s' := Next(s, step);
      assert s'.conns == s.conns;
      forall d | d in s'.threads && s'.threads[d].named ensures Registered(s', d) {
        assert Registered(s, d);
      }
  }

  lemma PushStep(s: Sys, step: Step)
    requires PushInv(s) && Enabled(s, step)
    ensures PushInv(Next(s, step))
  {
  }

  lemma StepInv(s: Sys, step: Step)
    requires Inv(s) && Enabled(s, step)
    ensures Inv(Next(s, step))
  {
    ClaimsStep(s, step);
    TicketsStep(s, step);
    RegisteredStep(s, step);
    PushStep(s, step);
  }

  // ----- Runs -----

  predicate Runnable(s: Sys, steps: seq<Step>)
    decreases steps
  {
    steps == [] || (Enabled(s, steps[0]) && Runnable(Next(s, steps[0]), steps[1..]))
  }

  function Run(s: Sys, steps: seq<Step>): Sys
    requires Runnable(s, steps)
    decreases steps
  {
    if steps == [] then s else Run(Next(s, steps[0]), steps[1..])
  }

  lemma {:induction false} RunInv(s: Sys, steps: seq<Step>)
    requires Inv(s) && Runnable(s, steps)
    ensures Inv(Run(s, steps))
    decreases steps
  {
    if steps != [] {
      StepInv(s, steps[0]);
      RunInv(Next(s, steps[0]), steps[1..]);
    }
  }

  /**
   Offer safety. In every run no browser and connecting profile is claimed twice or offered
   twice; every offer comes from a claim made with no review open and no refusal in force, and
   carries the selection that claim found.
   */
  lemma OffersAreSafe(snapshotId: Option<int>, review: bool, steps: seq<Step>)
    requires Runnable(Initial(snapshotId, review), steps)
    ensures var s := Run(Initial(snapshotId, review), steps);
      && (forall i, j :: 0 <= i < j < |s.claims| ==>
            (s.claims[i].owed.browser, s.claims[i].owed.profile)
            != (s.claims[j].owed.browser, s.claims[j].owed.profile))
      && (forall i, j :: 0 <= i < j < |s.offers| ==>
            (s.offers[i].owed.browser, s.offers[i].owed.profile)
            != (s.offers[j].owed.browser, s.offers[j].owed.profile))
      && (forall o :: o in s.offers ==>
            o.ticket < |s.claims| && s.claims[o.ticket].owed == o.owed && FairClaim(s.claims[o.ticket]))
  {
    var s := Run(Initial(snapshotId, review), steps);
    InitialInv(snapshotId, review);
    RunInv(Initial(snapshotId, review), steps);
    forall i, j | 0 <= i < j < |s.claims|
      ensures (s.claims[i].owed.browser, s.claims[i].owed.profile)
              != (s.claims[j].owed.browser, s.claims[j].owed.profile)
    {
      assert KeyOf(s.claims[i].owed) != KeyOf(s.claims[j].owed);
    }
    forall i, j | 0 <= i < j < |s.offers|
      ensures (s.offers[i].owed.browser, s.offers[i].owed.profile)
              != (s.offers[j].owed.browser, s.offers[j].owed.profile)
    {
      var t, u := s.offers[i].ticket, s.offers[j].ticket;
      assert t != u && Ticket(s, t, s.offers[i].owed) && Ticket(s, u, s.offers[j].owed);
      assert KeyOf(s.claims[t].owed) != KeyOf(s.claims[u].owed);
    }
    forall o | o in s.offers
      ensures o.ticket < |s.claims| && s.claims[o.ticket].owed == o.owed && FairClaim(s.claims[o.ticket]) {
      var i :| 0 <= i < |s.offers| && s.offers[i] == o;
      assert Ticket(s, o.ticket, o.owed);
      assert s.claims[o.ticket] in s.claims;
    }
  }

  // ----- Who is claimed -----

  /** The key a step asks for, when it asks. */
  function Asks(s: Sys, step: Step): Option<string>
    requires Enabled(s, step)
  {
    match step
    case Ask(c) => Some(ClaimKey(s.threads[c].phase.browser, s.threads[c].phase.profile))
    case Push =>
      if s.ui.next < |s.ui.targets| then
        Some(ClaimKey(s.ui.targets[s.ui.next].browser, s.ui.targets[s.ui.next].profile))
      else None
    case _ => None
  }

  /** No review is open, no refusal is in force and there is a session to offer. */
  predicate Offering(p: Pending) { !p.awaitingReview && !Refuses(p) && p.snapshotId.Some? }

  /** At some point of the run the key is asked for while the session is being offered. */
  predicate AskedWhileOffering(s: Sys, steps: seq<Step>, key: string)
    requires Runnable(s, steps)
    decreases steps
  {
    steps != [] &&
    (|| (Offering(s.pending) && Asks(s, steps[0]) == Some(key))
     || AskedWhileOffering(Next(s, steps[0]), steps[1..], key))
  }

  lemma OfferedStep(s: Sys, step: Step, key: string)
    requires Enabled(s, step)
    ensures key in Next(s, step).pending.offered
            <==> key in s.pending.offered || (Offering(s.pending) && Asks(s, step) == Some(key))
    ensures Next(s, step).pending.snapshotId == s.pending.snapshotId
  {
  }

  lemma {:induction false} OfferedBy(s: Sys, steps: seq<Step>, key: string)
    requires Runnable(s, steps)
    ensures key in Run(s, steps).pending.offered <==> key in s.pending.offered || AskedWhileOffering(s, steps, key)
    decreases steps
  {
    if steps != [] {
      OfferedStep(s, steps[0], key);
      OfferedBy(Next(s, steps[0]), steps[1..], key);
    }
  }

  ghost predicate ClaimedKey(s: Sys, key: string) {
    exists i :: 0 <= i < |s.claims| && KeyOf(s.claims[i].owed) == key
  }

  /**
   In every run a key has its claim exactly if, at some point, a hello or the push asked for it
   while no review was open, no refusal was in force and there was a session: deferrals, refusals
   and other keys' claims neither give it one nor cost it one.
   */
  lemma ClaimedExactly(snapshotId: Option<int>, review: bool, steps: seq<Step>, key: string)
    requires Runnable(Initial(snapshotId, review), steps)
    ensures ClaimedKey(Run(Initial(snapshotId, review), steps), key)
            <==> AskedWhileOffering(Initial(snapshotId, review), steps, key)
  {
    InitialInv(snapshotId, review);
    RunInv(Initial(snapshotId, review), steps);
    OfferedBy(Initial(snapshotId, review), steps, key);
  }

  /** What the user last said, if anything; a dismissal is a refusal. */
  function LastAnswer(steps: seq<Step>): Option<Selection> {
    if steps == [] then None
    else
      var rest := LastAnswer(steps[1..]);
      if rest.Some? then rest
      else match steps[0]
        case Answer(selection, _) => Some(selection)
        case Dismiss => Some(DECLINED)
        case _ => None
  }

  lemma {:induction false} AnswersDecide(s: Sys, steps: seq<Step>)
    requires Runnable(s, steps)
    ensures var p := Run(s, steps).pending;
      && p.snapshotId == s.pending.snapshotId
      && (p.awaitingReview, p.selection)
         == (if LastAnswer(steps).Some? then (false, LastAnswer(steps))
             else (s.pending.awaitingReview, s.pending.selection))
    decreases steps
  {
    if steps != [] { AnswersDecide(Next(s, steps[0]), steps[1..]); }
  }

  /** The user says nothing more, or refuses again. */
  predicate SaysNo(step: Step) { step.Answer? ==> step.selection.declined }

  /**
   A dismissal is final until the user says otherwise: whatever else happens, nothing is claimed
   for any key, and every hello is turned away rather than kept waiting.
   */
  lemma {:induction false} NothingAfterRefusal(s: Sys, steps: seq<Step>)
    requires Runnable(s, steps) && !s.pending.awaitingReview && Refuses(s.pending)
    requires forall step :: step in steps ==> SaysNo(step)
    ensures var t := Run(s, steps);
      && !t.pending.awaitingReview && Refuses(t.pending)
      && t.claims == s.claims && t.pending.offered == s.pending.offered
      && forall c :: Enabled(t, Ask(c)) ==>
           && Next(t, Ask(c)).threads[c].phase.Reading? && Next(t, Ask(c)).claims == s.claims
           && Next(t, Ask(c)).waiting == t.waiting
    decreases steps
  {
    if steps != [] {
      assert steps[0] in steps;
      NothingAfterRefusal(Next(s, steps[0]), steps[1..]);
    }
  }

  lemma DismissedIsRefused(s: Sys, steps: seq<Step>)
    requires Enabled(s, Dismiss) && Runnable(Next(s, Dismiss), steps) && forall step :: step in steps ==> SaysNo(step)
    ensures var t := Run(Next(s, Dismiss), steps);
      && t.claims == s.claims && t.pending.offered == s.pending.offered
      && forall c :: Enabled(t, Ask(c)) ==>
           && Next(t, Ask(c)).threads[c].phase.Reading? && Next(t, Ask(c)).claims == s.claims
           && Next(t, Ask(c)).waiting == t.waiting
  {
    NothingAfterRefusal(Next(s, Dismiss), steps);
  }

  /** While the review is open nothing has been claimed. */
  lemma {:induction false} NothingClaimedYet(s: Sys, steps: seq<Step>)
    requires Runnable(s, steps) && (s.pending.awaitingReview ==> s.claims == [])
    ensures Run(s, steps).pending.awaitingReview ==> Run(s, steps).claims == []
    decreases steps
  {
    if steps != [] { NothingClaimedYet(Next(s, steps[0]), steps[1..]); }
  }

  lemma {:induction false} RunConcat(s: Sys, a: seq<Step>, b: seq<Step>)
    requires Runnable(s, a) && Runnable(Run(s, a), b)
    ensures Runnable(s, a + b) && Run(s, a + b) == Run(Run(s, a), b)
    decreases a
  {
    if a == [] {
      assert a + b == b;
    } else {
      RunConcat(Next(s, a[0]), a[1..], b);
      assert (a + b)[1..] == a[1..] + b;
    }
  }

  /**
   A deferred key is served: if a hello is deferred and later, after whatever else, the user's
   last word was not a refusal, then the next ask for that key finds it claimed (by the push,
   say) or claims it there and then, with that answer.
   */
  lemma DeferredIsServed(snapshotId: int, before: seq<Step>, c: nat, between: seq<Step>, d: nat)
    requires Runnable(Initial(Some(snapshotId), true), before)
    requires var s := Run(Initial(Some(snapshotId), true), before);
      Enabled(s, Ask(c)) && s.pending.awaitingReview && Runnable(Next(s, Ask(c)), between)
    requires LastAnswer(between).Some? && !LastAnswer(between).value.declined
    requires var s := Run(Initial(Some(snapshotId), true), before); var t := Run(Next(s, Ask(c)), between);
      Enabled(t, Ask(d)) && Asks(t, Ask(d)) == Asks(s, Ask(c))
    ensures var s := Run(Initial(Some(snapshotId), true), before); var t := Run(Next(s, Ask(c)), between);
      var key := Asks(s, Ask(c)).value; var asked := Next(t, Ask(d)).threads[d].phase;
      && s.claims == [] && c in Next(s, Ask(c)).waiting
      && ClaimedKey(Next(t, Ask(d)), key)
      && (asked.Building? <==> !ClaimedKey(t, key))
      && (asked.Building? ==> asked.owed.snapshotId == snapshotId && asked.owed.selection == LastAnswer(between))
  {
    var start := Initial(Some(snapshotId), true);
    var s := Run(start, before);
    InitialInv(Some(snapshotId), true);
    RunInv(start, before);
    NothingClaimedYet(start, before);
    AnswersDecide(start, before);
    StepInv(s, Ask(c));
    RunInv(Next(s, Ask(c)), between);
    AnswersDecide(Next(s, Ask(c)), between);
    var t := Run(Next(s, Ask(c)), between);
    StepInv(t, Ask(d));
    OfferedStep(t, Ask(d), Asks(s, Ask(c)).value);
  }

  /**
   No waiting browser is missed: when the targets are listed, a connection that was deferred and
   is still open is among them, provided one of its messages said which browser it is.
   */
  lemma WaitersAreListed(snapshotId: Option<int>, review: bool, steps: seq<Step>, c: nat)
    requires Runnable(Initial(snapshotId, review), steps)
    requires var s := Run(Initial(snapshotId, review), steps); Enabled(s, List) && c in s.waiting
    ensures var s := Run(Initial(snapshotId, review), steps);
      && c in s.threads
      && ((exists t :: t in Next(s, List).ui.targets && t.id == c) <==> s.threads[c].named)
      && !Next(s, List).pending.awaitingReview
  {
    InitialInv(snapshotId, review);
    RunInv(Initial(snapshotId, review), steps);
    var s := Run(Initial(snapshotId, review), steps);
    if s.threads[c].named {
      assert Registered(s, c);
      var conn :| conn in s.conns && conn.id == c;
      assert conn in Next(s, List).ui.targets;
    }
  }

  /** And when the push is over, every listed target has had its claim, unless the answer was a refusal. */
  lemma TargetsAreServed(snapshotId: Option<int>, review: bool, steps: seq<Step>)
    requires Runnable(Initial(snapshotId, review), steps)
    requires var s := Run(Initial(snapshotId, review), steps); s.ui.Pushing? && s.ui.next == |s.ui.targets|
    ensures var s := Run(Initial(snapshotId, review), steps);
      !Refuses(s.pending) && s.pending.snapshotId.Some? ==>
        forall t :: t in s.ui.targets ==>
          exists i :: 0 <= i < |s.claims| && KeyOf(s.claims[i].owed) == ClaimKey(t.browser, t.profile)
  {
    InitialInv(snapshotId, review);
    RunInv(Initial(snapshotId, review), steps);
    var s := Run(Initial(snapshotId, review), steps);
    if !Refuses(s.pending) && s.pending.snapshotId.Some? {
      forall t | t in s.ui.targets
        ensures exists i :: 0 <= i < |s.claims| && KeyOf(s.claims[i].owed) == ClaimKey(t.browser, t.profile)
      {
        var i :| 0 <= i < |s.ui.targets| && s.ui.targets[i] == t;
        assert ClaimKey(t.browser, t.profile) in s.pending.offered;
      }
    }
  }

  // ----- Once per extension -----

  /** Which browser and profile the extension behind each connection runs in. */
  type Extensions = nat -> (string, string)

  /** Messages that name a browser come from that extension's browser under its own key, and so do hellos. */
  predicate OwnKey(step: Step, ext: Extensions) {
    step.Receive? ==>
      && (step.browser.Some? ==> (step.browser.value, step.registerAs) == ext(step.c))
      && (step.hello ==> step.browser.Some? && step.dispatchAs == ext(step.c).1)
  }

  predicate KeyedInv(s: Sys, ext: Extensions) {
    && (forall conn :: conn in s.conns ==> (conn.browser, conn.profile) == ext(conn.id))
    && (forall c :: c in s.threads && s.threads[c].phase.Consulting?
          ==> (s.threads[c].phase.browser, s.threads[c].phase.profile) == ext(c))
    && (s.ui.Pushing? || s.ui.PushBuilding? ==>
          forall conn :: conn in s.ui.targets ==> (conn.browser, conn.profile) == ext(conn.id))
    && (forall claim :: claim in s.claims ==> (claim.owed.browser, claim.owed.profile) == ext(claim.owed.to))
  }

  lemma KeyedStep(s: Sys, step: Step, ext: Extensions)
    requires KeyedInv(s, ext) && Enabled(s, step) && OwnKey(step, ext)
    ensures KeyedInv(Next(s, step), ext)
  {
  }

  lemma {:induction false} RunKeyed(s: Sys, steps: seq<Step>, ext: Extensions)
    requires KeyedInv(s, ext) && Runnable(s, steps) && forall step :: step in steps ==> OwnKey(step, ext)
    ensures KeyedInv(Run(s, steps), ext)
    decreases steps
  {
    if steps != [] {
      KeyedStep(s, steps[0], ext);
      RunKeyed(Next(s, steps[0]), steps[1..], ext);
    }
  }

  /**
   In every run in which each extension only ever speaks under its own key, no extension profile
   is offered the session twice, over however many connections.
   */
  lemma OncePerExtension(snapshotId: Option<int>, review: bool, steps: seq<Step>, ext: Extensions)
    requires Runnable(Initial(snapshotId, review), steps) && forall step :: step in steps ==> OwnKey(step, ext)
    ensures var s := Run(Initial(snapshotId, review), steps);
      forall i, j :: 0 <= i < j < |s.offers| ==> ext(s.offers[i].owed.to) != ext(s.offers[j].owed.to)
  {
    var s := Run(Initial(snapshotId, review), steps);
    OffersAreSafe(snapshotId, review, steps);
    RunKeyed(Initial(snapshotId, review), steps, ext);
    forall o | o in s.offers ensures (o.owed.browser, o.owed.profile) == ext(o.owed.to) {
      assert s.claims[o.ticket] in s.claims;
    }
  }

  lemma RunCons(s: Sys, step: Step, steps: seq<Step>)
    requires Enabled(s, step) && Runnable(Next(s, step), steps)
    ensures Runnable(s, [step] + steps) && Run(s, [step] + steps) == Run(Next(s, step), steps)
  {
    assert ([step] + steps)[1..] == steps;
  }

  lemma RunOne(s: Sys, step: Step)
    requires Enabled(s, step)
    ensures Runnable(s, [step]) && Run(s, [step]) == Next(s, step)
  {
    assert [step][1..] == [];
  }

  /** One extension, on two connections, that once spoke under another key before its hello. */
  datatype Early = Early(browser: string, first: string, own: string, c: nat, d: nat, snapshotId: int,
                         answer: Selection)

  predicate Distinct(e: Early) { e.first != e.own && e.c != e.d && !e.answer.declined }

  /** Every hello comes from the one extension under its own key. */
  predicate OneExtension(step: Step, e: Early) {
    step.Receive? ==> step.browser == Some(e.browser) && (step.hello ==> step.registerAs == step.dispatchAs == e.own)
  }

  function DeferSteps(e: Early): (r: seq<Step>)
    ensures forall step :: step in r ==> OneExtension(step, e)
  {
    [Accept(e.c), Receive(e.c, Some(e.browser), e.first, e.first, false),
     Receive(e.c, Some(e.browser), e.own, e.own, true), Ask(e.c), Answer(e.answer, false)]
  }

  function PushSteps(e: Early): (r: seq<Step>)
    ensures forall step :: step in r ==> OneExtension(step, e)
  {
    [List, Push, PushBuild(true), Push, Close(e.c)]
  }

  function AgainSteps(e: Early): (r: seq<Step>)
    ensures forall step :: step in r ==> OneExtension(step, e)
  {
    [Accept(e.d), Receive(e.d, Some(e.browser), e.own, e.own, true), Ask(e.d), Build(e.d, true)]
  }

  function AnsweredEarly(e: Early): Sys {
    Sys(Pending(Some(e.snapshotId), {}, Some(e.answer), false), [Conn(e.c, e.browser, e.first)],
        map[e.c := Thread(true, Reading)], Answered, {e.c}, [], [])
  }

  function FirstOwed(e: Early): Owed { Owed(e.c, e.browser, e.first, e.snapshotId, Some(e.answer)) }

  function SecondOwed(e: Early): Owed { Owed(e.d, e.browser, e.own, e.snapshotId, Some(e.answer)) }

  function ServedOnce(e: Early): Sys {
    Sys(Pending(Some(e.snapshotId), {ClaimKey(e.browser, e.first)}, Some(e.answer), false), [], map[], Resting, {},
        [Claim(FirstOwed(e), Pending(Some(e.snapshotId), {}, Some(e.answer), false))], [Offer(0, FirstOwed(e))])
  }

  /** The first hello is deferred, then answered. */
  lemma DeferredEarly(e: Early)
    requires Distinct(e)
    ensures var s := Initial(Some(e.snapshotId), true);
      Runnable(s, DeferSteps(e)) && Run(s, DeferSteps(e)) == AnsweredEarly(e)
  {
    var steps := DeferSteps(e);
    var s0 := Initial(Some(e.snapshotId), true);
    var s1 := Next(s0, steps[0]);
    var s2 := Next(s1, steps[1]);
    var s3 := Next(s2, steps[2]);
    var s4 := Next(s3, steps[3]);
    assert s4.threads == map[e.c := Thread(true, Reading)];
    assert Next(s4, steps[4]) == AnsweredEarly(e);
    RunOne(s4, steps[4]);
    RunCons(s3, steps[3], steps[4..]);
    assert [steps[3]] + steps[4..] == steps[3..];
    RunCons(s2, steps[2], steps[3..]);
    assert [steps[2]] + steps[3..] == steps[2..];
    RunCons(s1, steps[1], steps[2..]);
    assert [steps[1]] + steps[2..] == steps[1..];
    RunCons(s0, steps[0], steps[1..]);
    assert [steps[0]] + steps[1..] == steps;
  }

  /** The push serves the key the connection registered with. */
  lemma PushedOnce(e: Early)
    requires Distinct(e)
    ensures var s := AnsweredEarly(e); Runnable(s, PushSteps(e)) && Run(s, PushSteps(e)) == ServedOnce(e)
  {
    var steps := PushSteps(e);
    var s0 := AnsweredEarly(e);
    var s1 := Next(s0, List);
    var s2 := Next(s1, Push);
    var s3 := Next(s2, PushBuild(true));
    var s4 := Next(s3, Push);
    assert Without(s4.conns, e.c) == [];
    assert s4.threads - {e.c} == map[];
    assert Next(s4, Close(e.c)) == ServedOnce(e);
    RunOne(s4, steps[4]);
    RunCons(s3, steps[3], steps[4..]);
    assert [steps[3]] + steps[4..] == steps[3..];
    RunCons(s2, steps[2], steps[3..]);
    assert [steps[2]] + steps[3..] == steps[2..];
    RunCons(s1, steps[1], steps[2..]);
    assert [steps[1]] + steps[2..] == steps[1..];
    RunCons(s0, steps[0], steps[1..]);
    assert [steps[0]] + steps[1..] == steps;
  }

  lemma KeysDiffer(browser: string, a: string, b: string)
    requires a != b
    ensures ClaimKey(browser, a) != ClaimKey(browser, b)
  {
    var n := |browser| + 1;
    assert ClaimKey(browser, a)[n..] == a && ClaimKey(browser, b)[n..] == b;
  }

  /** The extension reconnects under its own key, which nobody has claimed. */
  lemma OfferedAgain(e: Early)
    requires Distinct(e)
    ensures Runnable(ServedOnce(e), AgainSteps(e))
    ensures Run(ServedOnce(e), AgainSteps(e)).offers == [Offer(0, FirstOwed(e)), Offer(1, SecondOwed(e))]
  {
    var steps := AgainSteps(e);
    var s0 := ServedOnce(e);
    var s1 := Next(s0, steps[0]);
    var s2 := Next(s1, steps[1]);
    KeysDiffer(e.browser, e.first, e.own);
    var s3 := Next(s2, steps[2]);
    assert Next(s3, steps[3]).offers == s0.offers + [Offer(1, SecondOwed(e))];
    RunOne(s3, steps[3]);
    RunCons(s2, steps[2], steps[3..]);
    assert [steps[2]] + steps[3..] == steps[2..];
    RunCons(s1, steps[1], steps[2..]);
    assert [steps[1]] + steps[2..] == steps[1..];
    RunCons(s0, steps[0], steps[1..]);
    assert [steps[0]] + steps[1..] == steps;
  }

  /**
   "Once per profile" is once per profile key. For any browser and any two keys, an extension
   whose first message came before its hello, under the one key, is pushed its deferred offer
   under that key; reconnecting under its own, it is offered the session again.
   */
  lemma EarlyMessageIsOfferedTwice(e: Early) returns (steps: seq<Step>)
    requires Distinct(e)
    ensures Runnable(Initial(Some(e.snapshotId), true), steps)
    ensures forall step :: step in steps ==> OneExtension(step, e)
    ensures Run(Initial(Some(e.snapshotId), true), steps).offers == [Offer(0, FirstOwed(e)), Offer(1, SecondOwed(e))]
  {
    var start := Initial(Some(e.snapshotId), true);
    DeferredEarly(e);
    PushedOnce(e);
    OfferedAgain(e);
    RunConcat(start, DeferSteps(e), PushSteps(e));
    RunConcat(start, DeferSteps(e) + PushSteps(e), AgainSteps(e));
    steps := DeferSteps(e) + PushSteps(e) + AgainSteps(e);
  }
}
