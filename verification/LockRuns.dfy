/**
 Runs of the lock manager with any number of sessions.  Each public method is one step;
 `acquire_or_wait` is several, so that other sessions can act between its first try, its
 entry into the queue, its wake-up or timeout, and its last try.
 */
module LockRuns {
  import opened Common
  import opened LockSpec
  import LM = LockManager

  /** How far a call of `acquire_or_wait` has got. */
  datatype Phase =
    | Rejected   // the first try was refused; not enqueued yet
    | Queued     // blocked on its one-shot channel
    | Signalled  // the channel delivered; will try again
    | Expired    // timed out, or the sender was dropped; its queue entry may still exist
    | Finished(result: Result<LockInfo, LockError>)

  datatype WaitCall = WaitCall(instance: InstanceId, req: Request, phase: Phase)

  type Ledger = set<(InstanceId, LockInfo)>

  /**
   The manager, the waiting calls, and a ledger of the leases granted and not yet ended, which
   is kept from the arguments and results of the calls alone.
   */
  datatype System = System(mgr: Manager, calls: map<Ticket, WaitCall>, nextTicket: Ticket, ledger: Ledger)

  const START := System(INITIAL, map[], 0, {})

  datatype Step =
    | Register(session: SessionId)
    | Unregister(session: SessionId)
    | TryAcquire(instance: InstanceId, req: Request, now: int)
    | Release(instance: InstanceId, session: SessionId, token: Option<LockToken>)
    | Renew(instance: InstanceId, session: SessionId, token: Option<LockToken>, ttlMillis: nat, now: int)
    | Reap(now: int)
    | BeginWait(instance: InstanceId, req: Request, now: int)
    | EnqueueWait(call: Ticket, now: int)
    | ResumeWait(call: Ticket, now: int)
    | ExpireWait(call: Ticket)
    | PurgeWait(call: Ticket)

  // ----- The ledger, from what callers see -----

  /** Leases that end on every instance. */
  function LedgerEnd(ledger: Ledger, rule: Rule): Ledger {
    set x | x in ledger && !Picks(rule, x.1)
  }

  /** Leases that end on one instance. */
  function LedgerEndAt(ledger: Ledger, i: InstanceId, rule: Rule): Ledger {
    set x | x in ledger && !(x.0 == i && Picks(rule, x.1))
  }

  /** The lease a call returned, in place of those the rule picks on that instance. */
  function LedgerPut(ledger: Ledger, i: InstanceId, rule: Rule, info: LockInfo): Ledger {
    LedgerEndAt(ledger, i, rule) + {(i, info)}
  }

  /** A successful acquire replaces whatever lease the session had there. */
  function LedgerAcquire(ledger: Ledger, i: InstanceId, r: Result<LockInfo, LockError>): Ledger {
    if r.Err? then ledger else LedgerPut(ledger, i, Named(r.value.session, None), r.value)
  }

  /** A renewal replaces the lease with the same token. */
  function LedgerRenew(ledger: Ledger, i: InstanceId, r: Result<LockInfo, LockError>): Ledger {
    if r.Err? then ledger else LedgerPut(ledger, i, HasToken(r.value.token), r.value)
  }

  // ----- Steps -----

  predicate InLog(log: seq<WaitEntry>, ticket: Ticket) {
    exists w :: w in log && w.ticket == ticket
  }

  /** A call blocked on a channel that was signalled wakes up; a dropped receiver does not. */
  function Wake(call: WaitCall, c: Ticket, signalled: seq<WaitEntry>): WaitCall {
    if call.phase.Queued? && InLog(signalled, c) then call.(phase := Signalled) else call
  }

  function Deliver(calls: map<Ticket, WaitCall>, notified: map<InstanceId, seq<WaitEntry>>): map<Ticket, WaitCall> {
    map c | c in calls :: Wake(calls[c], c, LogOf(notified, calls[c].instance))
  }

  function SetPhase(calls: map<Ticket, WaitCall>, c: Ticket, phase: Phase): map<Ticket, WaitCall>
    requires c in calls
  {
    calls[c := calls[c].(phase := phase)]
  }

  predicate InPhase(s: System, c: Ticket, phase: Phase) {
    c in s.calls && s.calls[c].phase == phase
  }

  /** An acquire by itself, or the first or last try of a waiting call. */
  ghost predicate AcquireNext(s: System, i: InstanceId, req: Request, now: int, s': System) {
    && s'.mgr == AcquireIn(s.mgr, i, req, now).0
    && s'.ledger == LedgerAcquire(s.ledger, i, AcquireIn(s.mgr, i, req, now).1.ToResult())
  }

  /** Leases end under the rule on every instance, and signals are delivered. */
  ghost predicate SweepNext(s: System, active: set<SessionId>, sweep: Sweep, rule: Rule, s': System) {
    && Swept(s.mgr.(activeSessions := active), sweep, s'.mgr)
    && s' == System(s'.mgr, Deliver(s.calls, s'.mgr.notified), s.nextTicket, LedgerEnd(s.ledger, rule))
  }

  ghost predicate Next(s: System, step: Step, s': System) {
    match step
    case Register(session) =>
      s' == s.(mgr := s.mgr.(activeSessions := s.mgr.activeSessions + {session}))
    case Unregister(session) =>
      SweepNext(s, s.mgr.activeSessions - {session}, Teardown(session), Named(session, None), s')
    case TryAcquire(i, req, now) =>
      AcquireNext(s, i, req, now, s') && s'.calls == s.calls && s'.nextTicket == s.nextTicket
    case Release(i, session, token) =>
      && s'.mgr == ReleaseIn(s.mgr, i, session, token).0
      && s' == System(s'.mgr, Deliver(s.calls, s'.mgr.notified), s.nextTicket,
                      LedgerEndAt(s.ledger, i, Named(session, token)))
    case Renew(i, session, token, ttl, now) =>
      && s'.mgr == RenewIn(s.mgr, i, session, token, ttl, now).0
      && s' == s.(mgr := s'.mgr, ledger := LedgerRenew(s.ledger, i, RenewIn(s.mgr, i, session, token, ttl, now).1))
    case Reap(now) =>
      SweepNext(s, s.mgr.activeSessions, LockSpec.Expire(now), DueBy(now), s')
    case BeginWait(i, req, now) =>
      && AcquireNext(s, i, req, now, s')
      && var outcome := AcquireIn(s.mgr, i, req, now).1;
         var phase := if outcome.Refused? then Rejected else Finished(Ok(outcome.info));
         s'.calls == s.calls[s.nextTicket := WaitCall(i, req, phase)] && s'.nextTicket == s.nextTicket + 1
    case EnqueueWait(c, now) =>
      && InPhase(s, c, Rejected)
      && var call := s.calls[c];
         var w := WaitEntry(call.req.session, call.req.agent, call.req.lockType, now, c);
         s' == s.(mgr := EnqueueIn(s.mgr, call.instance, w), calls := SetPhase(s.calls, c, Queued))
    case ResumeWait(c, now) =>
      && InPhase(s, c, Signalled)
      && var call := s.calls[c];
         var result := AcquireIn(s.mgr, call.instance, call.req, now).1.ToResult();
         && AcquireNext(s, call.instance, call.req, now, s')
         && s'.calls == SetPhase(s.calls, c, Finished(result)) && s'.nextTicket == s.nextTicket
    case ExpireWait(c) =>
      InPhase(s, c, Queued) && s' == s.(calls := SetPhase(s.calls, c, Phase.Expired))
    case PurgeWait(c) =>
      && InPhase(s, c, Phase.Expired)
      && var call := s.calls[c];
         s' == s.(mgr := RemoveFromQueueIn(s.mgr, call.instance, call.req.session),
                  calls := SetPhase(s.calls, c, Finished(Err(Timeout(call.instance)))))
  }

  ghost predicate IsRun(trace: seq<System>, steps: seq<Step>) {
    && |trace| == |steps| + 1
    && trace[0] == START
    && forall k :: 0 <= k < |steps| ==> Next(trace[k], steps[k], trace[k + 1])
  }

  // ----- What every reachable state satisfies -----

  ghost predicate LeasesOk(m: Manager) {
    forall i :: LeaseInv(m.State(i))
  }

  ghost predicate LedgerOk(m: Manager, ledger: Ledger) {
    forall i, o :: (i, o) in ledger <==> o in Leases(m.State(i))
  }

  ghost predicate TokensOk(ledger: Ledger, nextToken: LockToken) {
    && (forall x :: x in ledger ==> x.1.token < nextToken)
    && (forall x, y :: x in ledger && y in ledger && x.1.token == y.1.token ==> x == y)
  }

  ghost predicate GrantsOk(m: Manager, ledger: Ledger) {
    LeasesOk(m) && LedgerOk(m, ledger) && TokensOk(ledger, m.nextToken)
  }

  ghost predicate TicketsDistinct(log: seq<WaitEntry>) {
    forall j, k :: 0 <= j < k < |log| ==> log[j].ticket != log[k].ticket
  }

  /** Waiters already notified, then those still queued, are a subsequence of the arrivals. */
  ghost predicate QueueOk(notified: seq<WaitEntry>, queue: seq<WaitEntry>, arrivals: seq<WaitEntry>) {
    IsSubsequence(notified + queue, arrivals) && TicketsDistinct(arrivals)
  }

  /** Who joined a queue asks for what its call asks for. */
  ghost predicate ArrivalOk(calls: map<Ticket, WaitCall>, i: InstanceId, w: WaitEntry) {
    && w.ticket in calls
    && var call := calls[w.ticket];
       && call.instance == i && !call.phase.Rejected?
       && w.session == call.req.session && w.agent == call.req.agent && w.requested == call.req.lockType
  }

  predicate IsQueued(calls: map<Ticket, WaitCall>, w: WaitEntry) {
    w.ticket in calls && (calls[w.ticket].phase.Queued? || calls[w.ticket].phase.Expired?)
  }

  predicate IsPastQueue(calls: map<Ticket, WaitCall>, w: WaitEntry) {
    w.ticket in calls && !calls[w.ticket].phase.Queued?
  }

  ghost predicate WaitersOk(
    notified: seq<WaitEntry>, queue: seq<WaitEntry>, arrivals: seq<WaitEntry>,
    calls: map<Ticket, WaitCall>, i: InstanceId)
  {
    && (forall w :: w in arrivals ==> ArrivalOk(calls, i, w))
    && (forall w :: w in notified ==> IsPastQueue(calls, w))
    && (forall w :: w in queue ==> IsQueued(calls, w))
  }

  ghost predicate InstanceOk(m: Manager, calls: map<Ticket, WaitCall>, i: InstanceId) {
    var n, q, a := LogOf(m.notified, i), m.State(i).waitQueue, LogOf(m.arrivals, i);
    QueueOk(n, q, a) && WaitersOk(n, q, a, calls, i)
  }

  /** A call that waited goes on only after its own signal. */
  ghost predicate SignalOk(m: Manager, calls: map<Ticket, WaitCall>, c: Ticket)
    requires c in calls
  {
    var call := calls[c];
    && (call.phase.Signalled? ==> InLog(LogOf(m.notified, call.instance), c))
    && (call.phase.Finished? && call.phase.result != Err(Timeout(call.instance))
        && InLog(LogOf(m.arrivals, call.instance), c)
        ==> InLog(LogOf(m.notified, call.instance), c))
  }

  ghost predicate CallsOk(m: Manager, calls: map<Ticket, WaitCall>, nextTicket: Ticket) {
    && (forall i :: InstanceOk(m, calls, i))
    && (forall c :: c in calls ==> c < nextTicket && SignalOk(m, calls, c))
  }

  ghost predicate Inv(s: System) {
    GrantsOk(s.mgr, s.ledger) && CallsOk(s.mgr, s.calls, s.nextTicket)
  }

  // ----- Steps on leases -----

  /** What an acquire does to the leases of its instance. */
  ghost predicate AcquireEffect(
    st: LockState, req: Request, token: LockToken, st': LockState, outcome: AcquireOutcome)
  {
    && LeaseInv(st') && st'.waitQueue == st.waitQueue
    && (outcome.Refused? ==> st' == st && outcome.error.InstanceLocked?)
    && (!outcome.Refused? ==>
          && outcome.info.session == req.session
          && forall o :: o in Leases(st') <==> o == outcome.info || (o in Leases(st) && o.session != req.session))
    && (outcome.Granted? ==> outcome.info.token == token)
    && (outcome.RenewedLease? ==>
          exists o :: o in Leases(st) && o.session == req.session && SameLease(o, outcome.info))
  }

  /** Renewals keep a lease's session, type and token. */
  predicate SameLease(a: LockInfo, b: LockInfo) {
    a.session == b.session && a.lockType == b.lockType && a.token == b.token
  }

  lemma ReplacedMembers(infos: seq<LockInfo>, k: nat, info: LockInfo)
    requires DistinctSessions(infos) && k < |infos| && info.session == infos[k].session
    ensures forall o :: o in infos[k := info] <==> o == info || (o in infos && o.session != info.session)
  {
    var after := infos[k := info];
    forall o ensures o in after <==> o == info || (o in infos && o.session != info.session) {
      if o in after && o != info {
        var j :| 0 <= j < |after| && after[j] == o;
        assert infos[j] == o && j != k;
      }
      if o in infos && o.session != info.session {
        var j :| 0 <= j < |infos| && infos[j] == o;
        assert after[j] == o;
      }
      assert after[k] == info;
    }
  }

  lemma AcquireLeases(st: LockState, req: Request, now: int, token: LockToken)
    requires LeaseInv(st)
    ensures var (st', outcome) := LockSpec.Acquire(st, req, now, token); AcquireEffect(st, req, token, st', outcome)
  {
    hide AcquireEffect, LockSpec.Acquire, DistinctSessions;
    LM.AcquireKeepsInv(st, req, now, token);
    var k := FirstPicked(st.observers, Named(req.session, None));
    if st.exclusive.Some? && st.exclusive.value.session == req.session {
      RenewExclusiveLeases(st, req, now, token);
    } else if req.lockType == Observer && k < |st.observers| {
      RenewObserverLeases(st, k, req, now, token);
    } else {
      GrantLeases(st, req, now, token);
    }
  }

  lemma RenewExclusiveLeases(st: LockState, req: Request, now: int, token: LockToken)
    requires LeaseInv(st) && st.exclusive.Some? && st.exclusive.value.session == req.session
    requires LeaseInv(LockSpec.Acquire(st, req, now, token).0)
    ensures var (st', outcome) := LockSpec.Acquire(st, req, now, token); AcquireEffect(st, req, token, st', outcome)
  {
  }

  lemma RenewObserverLeases(st: LockState, k: nat, req: Request, now: int, token: LockToken)
    requires LeaseInv(st) && st.exclusive.None? && req.lockType == Observer
    requires k == FirstPicked(st.observers, Named(req.session, None)) && k < |st.observers|
    requires LeaseInv(LockSpec.Acquire(st, req, now, token).0)
    ensures var (st', outcome) := LockSpec.Acquire(st, req, now, token); AcquireEffect(st, req, token, st', outcome)
  {
    hide LockSpec.Acquire, DistinctSessions;
    LM.AcquireObserving(st, k, req, now, token);
    var info := Renewed(st.observers[k], req.agent, Expiry(now, req.ttlMillis));
    ReplacedMembers(st.observers, k, info);
    assert Leases(st) == st.observers;
    assert st.observers[k] in Leases(st) && SameLease(st.observers[k], info);
  }

  lemma GrantLeases(st: LockState, req: Request, now: int, token: LockToken)
    requires LeaseInv(st)
    requires st.exclusive.Some? ==> st.exclusive.value.session != req.session
    requires req.lockType == Observer ==> forall o :: o in st.observers ==> o.session != req.session
    requires LeaseInv(LockSpec.Acquire(st, req, now, token).0)
    ensures var (st', outcome) := LockSpec.Acquire(st, req, now, token); AcquireEffect(st, req, token, st', outcome)
  {
  }

  /** One lease of instance `i` takes the place of those the rule picks. */
  lemma LedgerReplace(m: Manager, i: InstanceId, m': Manager, ledger: Ledger, rule: Rule, info: LockInfo)
    requires GrantsOk(m, ledger) && LeaseInv(m'.State(i))
    requires forall j :: j != i ==> m'.State(j) == m.State(j)
    requires forall o :: o in Leases(m'.State(i)) <==> o == info || (o in Leases(m.State(i)) && !Picks(rule, o))
    requires || (info.token == m.nextToken && m'.nextToken == m.nextToken + 1)
             || (m'.nextToken == m.nextToken && exists o :: (i, o) in ledger && Picks(rule, o) && o.token == info.token)
    ensures GrantsOk(m', LedgerPut(ledger, i, rule, info))
  {
    hide DistinctSessions, LeaseInv, TokensOk;
    var ledger' := LedgerPut(ledger, i, rule, info);
    forall j ensures LeaseInv(m'.State(j)) {
      assert LeaseInv(m.State(j));
    }
    forall j, o ensures (j, o) in ledger' <==> o in Leases(m'.State(j)) {
    }
    LedgerPutTokens(ledger, m.nextToken, i, rule, info, m'.nextToken);
  }

  lemma LedgerPutTokens(ledger: Ledger, next: LockToken, i: InstanceId, rule: Rule, info: LockInfo, next': LockToken)
    requires TokensOk(ledger, next)
    requires || (info.token == next && next' == next + 1)
             || (next' == next && exists o :: (i, o) in ledger && Picks(rule, o) && o.token == info.token)
    ensures TokensOk(LedgerPut(ledger, i, rule, info), next')
  {
  }

  lemma AcquireStep(s: System, i: InstanceId, req: Request, now: int, s': System)
    requires GrantsOk(s.mgr, s.ledger) && AcquireNext(s, i, req, now, s')
    ensures GrantsOk(s'.mgr, s'.ledger)
    ensures s'.mgr.arrivals == s.mgr.arrivals && s'.mgr.notified == s.mgr.notified
    ensures forall j :: s'.mgr.State(j).waitQueue == s.mgr.State(j).waitQueue
  {
    var st := s.mgr.State(i);
    assert LeaseInv(st);
    AcquireLeases(st, req, now, s.mgr.nextToken);
    var (st', outcome) := LockSpec.Acquire(st, req, now, s.mgr.nextToken);
    AcquireGrants(s, i, req, s', st', outcome);
  }

  lemma AcquireGrants(s: System, i: InstanceId, req: Request, s': System, st': LockState, outcome: AcquireOutcome)
    requires GrantsOk(s.mgr, s.ledger)
    requires AcquireEffect(s.mgr.State(i), req, s.mgr.nextToken, st', outcome)
    requires s'.mgr == s.mgr.(locks := s.mgr.locks[i := st'],
                              nextToken := s.mgr.nextToken + if outcome.Granted? then 1 else 0)
    requires s'.ledger == LedgerAcquire(s.ledger, i, outcome.ToResult())
    ensures GrantsOk(s'.mgr, s'.ledger)
    ensures forall j :: s'.mgr.State(j).waitQueue == s.mgr.State(j).waitQueue
  {
    hide DistinctSessions, LeaseInv, TokensOk;
    var st := s.mgr.State(i);
    forall j ensures s'.mgr.State(j) == if j == i then st' else s.mgr.State(j) {
    }
    if outcome.Refused? {
      assert forall j :: s'.mgr.State(j) == s.mgr.State(j);
      SameGrants(s.mgr, s'.mgr, s.ledger);
    } else {
      var rule := Named(outcome.info.session, None);
      if outcome.RenewedLease? {
        var o :| o in Leases(st) && o.session == req.session && SameLease(o, outcome.info);
        assert (i, o) in s.ledger && Picks(rule, o);
      }
      LedgerReplace(s.mgr, i, s'.mgr, s.ledger, rule, outcome.info);
    }
  }

  lemma SameGrants(m: Manager, m': Manager, ledger: Ledger)
    requires GrantsOk(m, ledger) && m'.nextToken == m.nextToken
    requires forall j :: Leases(m'.State(j)) == Leases(m.State(j)) && m'.State(j).exclusive == m.State(j).exclusive
                         && m'.State(j).observers == m.State(j).observers
    ensures GrantsOk(m', ledger)
  {
  }

  lemma RenewStep(
    s: System, i: InstanceId, session: SessionId, token: Option<LockToken>, ttl: nat, now: int, s': System)
    requires GrantsOk(s.mgr, s.ledger) && Next(s, Renew(i, session, token, ttl, now), s')
    ensures GrantsOk(s'.mgr, s'.ledger)
    ensures s'.mgr.arrivals == s.mgr.arrivals && s'.mgr.notified == s.mgr.notified
    ensures forall j :: s'.mgr.State(j).waitQueue == s.mgr.State(j).waitQueue
  {
    hide DistinctSessions, LeaseInv;
    var m, m' := s.mgr, s'.mgr;
    var st := m.State(i);
    var k := FirstPicked(Leases(st), Named(session, token));
    if i in m.locks && k < |Leases(st)| {
      var o := Leases(st)[k];
      var info := o.(expiresAt := Expiry(now, ttl));
      var st' := ReplaceLease(st, k, info);
      assert LeaseInv(st);
      LM.RenewKeepsInv(st, session, token, Expiry(now, ttl));
      assert o in Leases(st) && (i, o) in s.ledger && Picks(HasToken(info.token), o);
      RenewedMembers(s, i, k, info);
      forall j ensures m'.State(j) == if j == i then st' else m.State(j) {
      }
      LedgerReplace(m, i, m', s.ledger, HasToken(info.token), info);
    }
  }

  lemma RenewedMembers(s: System, i: InstanceId, k: nat, info: LockInfo)
    requires GrantsOk(s.mgr, s.ledger)
    requires var st := s.mgr.State(i);
             k < |Leases(st)| && info.session == Leases(st)[k].session && info.token == Leases(st)[k].token
    ensures var st := s.mgr.State(i);
            forall o :: o in Leases(ReplaceLease(st, k, info)) <==>
              o == info || (o in Leases(st) && !Picks(HasToken(info.token), o))
  {
    hide DistinctSessions;
    var st := s.mgr.State(i);
    var infos := Leases(st);
    assert LeaseInv(st);
    LeasesDistinct(st);
    assert Leases(ReplaceLease(st, k, info)) == infos[k := info];
    forall o | o in infos && o.token == info.token ensures o == infos[k] {
      assert infos[k] in infos && (i, infos[k]) in s.ledger && (i, o) in s.ledger;
    }
    ReplacedByToken(infos, k, info);
  }

  lemma LeasesDistinct(st: LockState)
    requires LeaseInv(st)
    ensures DistinctSessions(Leases(st))
  {
  }

  lemma ReplacedByToken(infos: seq<LockInfo>, k: nat, info: LockInfo)
    requires DistinctSessions(infos) && k < |infos|
    requires info.session == infos[k].session && info.token == infos[k].token
    requires forall o :: o in infos && o.token == info.token ==> o == infos[k]
    ensures forall o :: o in infos[k := info] <==> o == info || (o in infos && o.token != info.token)
  {
    ReplacedMembers(infos, k, info);
    forall o | o in infos && o.session == info.session ensures o == infos[k] {
      SessionUnique(infos, k, o);
    }
  }

  lemma SessionUnique(infos: seq<LockInfo>, k: nat, o: LockInfo)
    requires DistinctSessions(infos) && k < |infos| && o in infos
    ensures o.session == infos[k].session ==> o == infos[k]
  {
  }

  // ----- Steps that end leases -----

  /** The leases the rule picks are gone, and what is notified or still queued was queued in that order. */
  ghost predicate Ends(st: LockState, step: EntryStep, rule: Rule) {
    && LeaseInv(OrEmpty(step.entry))
    && IsSubsequence(step.notified + OrEmpty(step.entry).waitQueue, st.waitQueue)
    && forall o :: o in Leases(OrEmpty(step.entry)) <==> o in Leases(st) && !Picks(rule, o)
  }

  lemma PromoteEnds(st: LockState, rule: Rule)
    requires LeaseInv(st)
    ensures Ends(st, PromoteAfter(st, Strip(st, rule)), rule)
  {
    hide DistinctSessions, IsSubsequence;
    var stripped := Strip(st, rule);
    StripFacts(st, rule);
    SubsequenceRefl(st.waitQueue);
    if stripped == st {
      assert [] + st.waitQueue == st.waitQueue;
    } else {
      PromotedEnds(st, stripped, rule);
    }
  }

  lemma PromotedEnds(st: LockState, stripped: LockState, rule: Rule)
    requires LeaseInv(stripped) && stripped.waitQueue == st.waitQueue && IsSubsequence(st.waitQueue, st.waitQueue)
    requires forall o :: o in Leases(stripped) <==> o in Leases(st) && !Picks(rule, o)
    ensures Ends(st, EntryStep(DropIfEmpty(Promoted(stripped)), PromotedWaiters(stripped)), rule)
  {
    hide DistinctSessions, IsSubsequence;
    assert PromotedWaiters(stripped) + Promoted(stripped).waitQueue == st.waitQueue;
    assert Leases(Promoted(stripped)) == Leases(stripped);
    var after := OrEmpty(DropIfEmpty(Promoted(stripped)));
    assert after == Promoted(stripped);
  }

  function SweepRule(sweep: Sweep): Rule {
    match sweep
    case Drop(session) => Named(session, None)
    case Teardown(session) => Named(session, None)
    case Expire(now) => DueBy(now)
  }

  lemma SweepEnds(sweep: Sweep, entry: Option<LockState>)
    requires LeaseInv(OrEmpty(entry))
    ensures Ends(OrEmpty(entry), SweepEntry(sweep, entry), SweepRule(sweep))
    ensures sweep.Teardown? ==>
              forall w :: w in OrEmpty(SweepEntry(sweep, entry).entry).waitQueue ==> w.session != sweep.session
  {
    if entry.None? {
      SubsequenceRefl<WaitEntry>([]);
      assert [] + EMPTY.waitQueue == [];
    } else {
      PromoteEnds(entry.value, SweepRule(sweep));
      if sweep.Teardown? {
        var step := ReleaseEntry(entry, sweep.session, None);
        TeardownEnds(entry.value, step, sweep.session);
      }
    }
  }

  lemma TeardownEnds(st: LockState, step: EntryStep, session: SessionId)
    requires Ends(st, step, Named(session, None))
    ensures Ends(st, EntryStep(PurgeEntry(step.entry, session), step.notified), Named(session, None))
    ensures forall w :: w in OrEmpty(PurgeEntry(step.entry, session)).waitQueue ==> w.session != session
  {
    if step.entry.Some? {
      var q := step.entry.value.waitQueue;
      var q' := OthersWaiting(q, session);
      OthersInOrder(q, session);
      OthersMembers(q, session);
      SubsequencePrepend(step.notified, q', q);
      SubsequenceTrans(step.notified + q', step.notified + q, st.waitQueue);
      assert Leases(WithoutWaiter(step.entry.value, session)) == Leases(step.entry.value);
    }
  }

  // ----- Steps on queues -----

  /** In a log without repeated tickets, waiters with one ticket are one waiter, served once. */
  lemma ServedDistinct(served: seq<WaitEntry>, arrivals: seq<WaitEntry>)
    requires IsSubsequence(served, arrivals) && TicketsDistinct(arrivals)
    ensures TicketsDistinct(served)
    ensures forall w :: w in served ==> w in arrivals
  {
    assert NoDup(arrivals);
    SubsequenceElements(served, arrivals);
    forall j, k | 0 <= j < k < |served| ensures served[j].ticket != served[k].ticket {
      assert served[j] in arrivals && served[k] in arrivals;
      var x :| 0 <= x < |arrivals| && arrivals[x] == served[j];
      var y :| 0 <= y < |arrivals| && arrivals[y] == served[k];
    }
  }

  /** `moved` are notified and `q'` stay; `moved + q'` is a subsequence of the old queue. */
  lemma ShrinkQueue(n: seq<WaitEntry>, q: seq<WaitEntry>, a: seq<WaitEntry>, moved: seq<WaitEntry>, q': seq<WaitEntry>)
    requires QueueOk(n, q, a) && IsSubsequence(moved + q', q)
    ensures QueueOk(n + moved, q', a)
    ensures forall w :: w in moved || w in q' ==> w in q
  {
    SubsequencePrepend(n, moved + q', q);
    assert n + (moved + q') == (n + moved) + q';
    SubsequenceTrans((n + moved) + q', n + q, a);
    SubsequenceElements(moved + q', q);
    forall w | w in moved || w in q' ensures w in moved + q' {
    }
  }

  lemma NotBothServedAndQueued(n: seq<WaitEntry>, q: seq<WaitEntry>, w: WaitEntry)
    requires TicketsDistinct(n + q) && w in q
    ensures !InLog(n, w.ticket)
  {
    var y :| 0 <= y < |q| && q[y] == w;
    assert (n + q)[|n| + y] == w;
    forall v | v in n ensures v.ticket != w.ticket {
      var x :| 0 <= x < |n| && n[x] == v;
      assert (n + q)[x] == v;
    }
  }

  lemma ShrinkWaiters(
    n: seq<WaitEntry>, q: seq<WaitEntry>, a: seq<WaitEntry>, moved: seq<WaitEntry>, q': seq<WaitEntry>,
    calls: map<Ticket, WaitCall>, calls': map<Ticket, WaitCall>, i: InstanceId)
    requires QueueOk(n, q, a) && WaitersOk(n, q, a, calls, i) && IsSubsequence(moved + q', q)
    requires calls'.Keys == calls.Keys
    requires forall c :: c in calls && calls[c].instance == i ==> calls'[c] == Wake(calls[c], c, n + moved)
    ensures QueueOk(n + moved, q', a) && WaitersOk(n + moved, q', a, calls', i)
  {
    ShrinkQueue(n, q, a, moved, q');
    ServedDistinct((n + moved) + q', a);
    ServedDistinct(n + q, a);
    forall w | w in a ensures ArrivalOk(calls', i, w) {
      assert ArrivalOk(calls, i, w);
    }
    forall w | w in n + moved ensures IsPastQueue(calls', w) {
      assert w in n + q && ArrivalOk(calls, i, w) && InLog(n + moved, w.ticket);
    }
    forall w | w in q' ensures IsQueued(calls', w) {
      assert w in n + q && ArrivalOk(calls, i, w);
      NotBothServedAndQueued(n + moved, q', w);
    }
  }

  /** Waiters leave the queue of each instance, some of them from its front to be notified. */
  ghost predicate QueuesShrink(m: Manager, m': Manager) {
    && m'.arrivals == m.arrivals
    && forall i ::
         var n, n' := LogOf(m.notified, i), LogOf(m'.notified, i);
         n <= n' && IsSubsequence(n'[|n|..] + m'.State(i).waitQueue, m.State(i).waitQueue)
  }

  lemma ShrinkStep(m: Manager, calls: map<Ticket, WaitCall>, nextTicket: Ticket, m': Manager)
    requires CallsOk(m, calls, nextTicket) && QueuesShrink(m, m')
    ensures CallsOk(m', Deliver(calls, m'.notified), nextTicket)
  {
    hide IsSubsequence, TicketsDistinct;
    var calls' := Deliver(calls, m'.notified);
    forall i ensures InstanceOk(m', calls', i) {
      assert InstanceOk(m, calls, i);
      var n, n' := LogOf(m.notified, i), LogOf(m'.notified, i);
      assert n' == n + n'[|n|..];
      ShrinkWaiters(n, m.State(i).waitQueue, LogOf(m.arrivals, i), n'[|n|..], m'.State(i).waitQueue, calls, calls', i);
    }
    forall c | c in calls' ensures c < nextTicket && SignalOk(m', calls', c) {
      var i := calls[c].instance;
      assert SignalOk(m, calls, c);
      var n, n' := LogOf(m.notified, i), LogOf(m'.notified, i);
      assert n <= n';
      if InLog(n, c) {
        var w :| w in n && w.ticket == c;
        assert w in n';
      }
    }
  }

  // ----- Every step keeps the invariant -----

  lemma SweepKeeps(s: System, active: set<SessionId>, sweep: Sweep, s': System)
    requires Inv(s) && SweepNext(s, active, sweep, SweepRule(sweep), s')
    ensures Inv(s')
    ensures forall i :: s'.mgr.State(i) == OrEmpty(SweepEntry(sweep, s.mgr.Entry(i)).entry)
  {
    hide DistinctSessions, LeaseInv, QueueOk, WaitersOk, IsSubsequence, SignalOk, TokensOk;
    var m, m' := s.mgr, s'.mgr;
    var rule := SweepRule(sweep);
    forall i
      ensures m'.State(i) == OrEmpty(SweepEntry(sweep, m.Entry(i)).entry)
      ensures LogOf(m'.notified, i) == LogOf(m.notified, i) + SweepEntry(sweep, m.Entry(i)).notified
      ensures Ends(m.State(i), SweepEntry(sweep, m.Entry(i)), rule)
    {
      assert LeaseInv(m.State(i));
      assert m'.Entry(i) == SweepEntry(sweep, m.(activeSessions := active).Entry(i)).entry;
      SweepEnds(sweep, m.Entry(i));
    }
    SweepGrants(m, m', s.ledger, sweep);
    SweepShrinks(m, m', sweep);
    ShrinkStep(m, s.calls, s.nextTicket, m');
  }

  lemma SweepGrants(m: Manager, m': Manager, ledger: Ledger, sweep: Sweep)
    requires GrantsOk(m, ledger) && m'.nextToken == m.nextToken
    requires forall i :: m'.State(i) == OrEmpty(SweepEntry(sweep, m.Entry(i)).entry)
    requires forall i :: Ends(m.State(i), SweepEntry(sweep, m.Entry(i)), SweepRule(sweep))
    ensures GrantsOk(m', LedgerEnd(ledger, SweepRule(sweep)))
  {
  }

  lemma SweepShrinks(m: Manager, m': Manager, sweep: Sweep)
    requires m'.arrivals == m.arrivals
    requires forall i :: m'.State(i) == OrEmpty(SweepEntry(sweep, m.Entry(i)).entry)
    requires forall i :: LogOf(m'.notified, i) == LogOf(m.notified, i) + SweepEntry(sweep, m.Entry(i)).notified
    requires forall i :: Ends(m.State(i), SweepEntry(sweep, m.Entry(i)), SweepRule(sweep))
    ensures QueuesShrink(m, m')
  {
  }

  lemma ReleaseKeeps(s: System, i: InstanceId, session: SessionId, token: Option<LockToken>, s': System)
    requires Inv(s) && Next(s, Release(i, session, token), s')
    ensures Inv(s')
  {
    hide DistinctSessions, LeaseInv, QueueOk, WaitersOk, IsSubsequence, SignalOk, TokensOk;
    var m, m' := s.mgr, s'.mgr;
    assert LeaseInv(m.State(i));
    PromoteEnds(m.State(i), Named(session, token));
    var r := ReleaseEntry(m.Entry(i), session, token);
    forall j
      ensures m'.State(j) == if j == i then OrEmpty(r.entry) else m.State(j)
      ensures LogOf(m'.notified, j) == LogOf(m.notified, j) + if j == i then r.notified else []
    {
    }
    ReleaseGrants(m, m', s.ledger, i, r, Named(session, token));
    forall j
      ensures var n, n' := LogOf(m.notified, j), LogOf(m'.notified, j);
              n <= n' && IsSubsequence(n'[|n|..] + m'.State(j).waitQueue, m.State(j).waitQueue)
    {
      SubsequenceRefl(m.State(j).waitQueue);
      assert [] + m.State(j).waitQueue == m.State(j).waitQueue;
    }
    ShrinkStep(m, s.calls, s.nextTicket, m');
  }

  lemma ReleaseGrants(m: Manager, m': Manager, ledger: Ledger, i: InstanceId, r: EntryStep, rule: Rule)
    requires GrantsOk(m, ledger) && m'.nextToken == m.nextToken && Ends(m.State(i), r, rule)
    requires forall j :: m'.State(j) == if j == i then OrEmpty(r.entry) else m.State(j)
    ensures GrantsOk(m', LedgerEndAt(ledger, i, rule))
  {
  }

  lemma PurgeKeeps(s: System, c: Ticket, s': System)
    requires Inv(s) && Next(s, PurgeWait(c), s')
    ensures Inv(s')
    ensures forall w :: w in s'.mgr.State(s.calls[c].instance).waitQueue ==> w.session != s.calls[c].req.session
  {
    hide DistinctSessions, LeaseInv, IsSubsequence, TokensOk, TicketsDistinct;
    var m, m' := s.mgr, s'.mgr;
    var call := s.calls[c];
    forall j
      ensures m'.State(j) == if j == call.instance then WithoutWaiter(m.State(j), call.req.session) else m.State(j)
    {
    }
    forall j ensures Leases(m'.State(j)) == Leases(m.State(j)) {
    }
    SameGrants(m, m', s.ledger);
    OthersMembers(m.State(call.instance).waitQueue, call.req.session);
    forall j ensures InstanceOk(m', s'.calls, j) {
      assert InstanceOk(m, s.calls, j);
      var n, q, a := LogOf(m.notified, j), m.State(j).waitQueue, LogOf(m.arrivals, j);
      var q' := m'.State(j).waitQueue;
      SubsequenceRefl(q);
      OthersInOrder(q, call.req.session);
      assert [] + q' == q' && n + [] == n;
      ShrinkQueue(n, q, a, [], q');
      ServedDistinct(n + q, a);
      PurgeWaiters(n, q, a, q', s.calls, c, j, s'.calls);
    }
    forall d | d in s'.calls ensures d < s'.nextTicket && SignalOk(m', s'.calls, d) {
      assert SignalOk(m, s.calls, d);
    }
  }

  lemma PurgeWaiters(
    n: seq<WaitEntry>, q: seq<WaitEntry>, a: seq<WaitEntry>, q': seq<WaitEntry>,
    calls: map<Ticket, WaitCall>, c: Ticket, j: InstanceId, calls': map<Ticket, WaitCall>)
    requires WaitersOk(n, q, a, calls, j) && c in calls && calls[c].phase.Expired?
    requires forall w :: w in n + q ==> w in a
    requires forall w :: w in q' ==> w in q && (j == calls[c].instance ==> w.session != calls[c].req.session)
    requires calls' == SetPhase(calls, c, Finished(Err(Timeout(calls[c].instance))))
    ensures WaitersOk(n, q', a, calls', j)
  {
    forall w | w in a ensures ArrivalOk(calls', j, w) {
      assert ArrivalOk(calls, j, w);
    }
    forall w | w in n ensures IsPastQueue(calls', w) {
      assert IsPastQueue(calls, w);
    }
    forall w | w in q' ensures IsQueued(calls', w) {
      assert w in n + q && ArrivalOk(calls, j, w) && IsQueued(calls, w);
    }
  }

  lemma EnqueueKeeps(s: System, c: Ticket, now: int, s': System)
    requires Inv(s) && Next(s, EnqueueWait(c, now), s')
    ensures CallsOk(s'.mgr, s'.calls, s'.nextTicket)
  {
    hide DistinctSessions, LeaseInv, IsSubsequence, TokensOk, TicketsDistinct, QueueOk, WaitersOk;
    var m, m' := s.mgr, s'.mgr;
    var i := s.calls[c].instance;
    var w := WaitEntry(s.calls[c].req.session, s.calls[c].req.agent, s.calls[c].req.lockType, now, c);
    forall j
      ensures m'.State(j) == if j == i then m.State(j).(waitQueue := m.State(j).waitQueue + [w]) else m.State(j)
      ensures LogOf(m'.arrivals, j) == LogOf(m.arrivals, j) + if j == i then [w] else []
    {
    }
    forall j ensures InstanceOk(m', s'.calls, j) {
      assert InstanceOk(m, s.calls, j);
      EnqueueWaiters(LogOf(m.notified, j), m.State(j).waitQueue, LogOf(m.arrivals, j), s.calls, c, w, j, s'.calls);
    }
    forall d | d in s'.calls ensures d < s'.nextTicket && SignalOk(m', s'.calls, d) {
      assert SignalOk(m, s.calls, d);
      var a := LogOf(m'.arrivals, s.calls[d].instance);
      if d != c && InLog(a, d) {
        var v :| v in a && v.ticket == d;
        assert v in LogOf(m.arrivals, s.calls[d].instance);
      }
    }
  }

  lemma EnqueueWaiters(
    n: seq<WaitEntry>, q: seq<WaitEntry>, a: seq<WaitEntry>, calls: map<Ticket, WaitCall>,
    c: Ticket, w: WaitEntry, j: InstanceId, calls': map<Ticket, WaitCall>)
    requires QueueOk(n, q, a) && WaitersOk(n, q, a, calls, j)
    requires c in calls && calls[c].phase.Rejected? && calls' == SetPhase(calls, c, Queued)
    requires w.ticket == c && w.session == calls[c].req.session
    requires w.agent == calls[c].req.agent && w.requested == calls[c].req.lockType
    ensures WaitersOk(n, q, a, calls', j)
    ensures calls[c].instance == j ==> QueueOk(n, q + [w], a + [w]) && WaitersOk(n, q + [w], a + [w], calls', j)
  {
    hide IsSubsequence, TicketsDistinct;
    ServedDistinct(n + q, a);
    forall v | v in a ensures ArrivalOk(calls', j, v) && v.ticket != c {
      assert ArrivalOk(calls, j, v);
    }
    forall v | v in n ensures IsPastQueue(calls', v) {
      assert v in n + q && IsPastQueue(calls, v);
    }
    forall v | v in q ensures IsQueued(calls', v) {
      assert v in n + q && IsQueued(calls, v);
    }
    if calls[c].instance == j {
      EnqueueQueue(n, q, a, w);
      assert forall v :: v in a + [w] <==> v in a || v == w;
      assert forall v :: v in q + [w] <==> v in q || v == w;
    }
  }

  lemma EnqueueQueue(n: seq<WaitEntry>, q: seq<WaitEntry>, a: seq<WaitEntry>, w: WaitEntry)
    requires QueueOk(n, q, a) && forall v :: v in a ==> v.ticket != w.ticket
    ensures QueueOk(n, q + [w], a + [w])
  {
    SubsequenceSnoc(n + q, a, w);
    assert (n + q) + [w] == n + (q + [w]);
    forall j, k | 0 <= j < k < |a + [w]| ensures (a + [w])[j].ticket != (a + [w])[k].ticket {
      assert a[j] in a;
    }
  }

  /** Steps that touch neither queues nor logs, and at most the phase of one call outside any queue. */
  lemma QuietKeeps(s: System, s': System, c: Ticket)
    requires CallsOk(s.mgr, s.calls, s.nextTicket) && s'.nextTicket >= s.nextTicket
    requires forall j :: s'.mgr.State(j).waitQueue == s.mgr.State(j).waitQueue
    requires s'.mgr.arrivals == s.mgr.arrivals && s'.mgr.notified == s.mgr.notified
    requires s.calls.Keys <= s'.calls.Keys <= s.calls.Keys + {c}
    requires forall d :: d in s.calls && d != c ==> s'.calls[d] == s.calls[d]
    requires c in s.calls ==>
      && s.calls[c].(phase := s'.calls[c].phase) == s'.calls[c]
      && (|| s.calls[c] == s'.calls[c]
          || (s.calls[c].phase.Queued? && s'.calls[c].phase.Expired?)
          || (s.calls[c].phase.Signalled? && s'.calls[c].phase.Finished?))
    requires c in s'.calls && c !in s.calls ==>
      s.nextTicket <= c < s'.nextTicket && (s'.calls[c].phase.Rejected? || s'.calls[c].phase.Finished?)
    ensures CallsOk(s'.mgr, s'.calls, s'.nextTicket)
  {
    var m, m' := s.mgr, s'.mgr;
    forall j ensures InstanceOk(m', s'.calls, j) {
      assert InstanceOk(m, s.calls, j) && m'.State(j).waitQueue == m.State(j).waitQueue;
      var n, q, a := LogOf(m.notified, j), m.State(j).waitQueue, LogOf(m.arrivals, j);
      ServedDistinct(n + q, a);
      forall v | v in a ensures ArrivalOk(s'.calls, j, v) {
        assert ArrivalOk(s.calls, j, v);
      }
      forall v | v in n ensures IsPastQueue(s'.calls, v) {
        assert IsPastQueue(s.calls, v);
      }
      forall v | v in q ensures IsQueued(s'.calls, v) {
        assert IsQueued(s.calls, v);
      }
    }
    forall d | d in s'.calls ensures d < s'.nextTicket && SignalOk(m', s'.calls, d) {
      if d in s.calls {
        assert SignalOk(m, s.calls, d);
      } else {
        var j := s'.calls[d].instance;
        assert InstanceOk(m, s.calls, j);
        forall v | v in LogOf(m.arrivals, j) ensures v.ticket != d {
          assert ArrivalOk(s.calls, j, v);
        }
      }
    }
  }

  lemma StepKeeps(s: System, step: Step, s': System)
    requires Inv(s) && Next(s, step, s')
    ensures Inv(s')
  {
    hide DistinctSessions, LeaseInv, QueueOk, WaitersOk, IsSubsequence, SignalOk, TokensOk;
    match step
    case Register(session) =>
      assert forall j :: s'.mgr.State(j) == s.mgr.State(j);
      SameGrants(s.mgr, s'.mgr, s.ledger);
      QuietKeeps(s, s', s.nextTicket);
    case Unregister(session) =>
      SweepKeeps(s, s.mgr.activeSessions - {session}, Teardown(session), s');
    case TryAcquire(i, req, now) =>
      AcquireStep(s, i, req, now, s');
      QuietKeeps(s, s', s.nextTicket);
    case Release(i, session, token) =>
      ReleaseKeeps(s, i, session, token, s');
    case Renew(i, session, token, ttl, now) =>
      RenewStep(s, i, session, token, ttl, now, s');
      QuietKeeps(s, s', s.nextTicket);
    case Reap(now) =>
      SweepKeeps(s, s.mgr.activeSessions, LockSpec.Expire(now), s');
    case BeginWait(i, req, now) =>
      AcquireStep(s, i, req, now, s');
      QuietKeeps(s, s', s.nextTicket);
    case EnqueueWait(c, now) =>
      assert forall j :: s'.mgr.State(j).exclusive == s.mgr.State(j).exclusive
                         && s'.mgr.State(j).observers == s.mgr.State(j).observers;
      SameGrants(s.mgr, s'.mgr, s.ledger);
      EnqueueKeeps(s, c, now, s');
    case ResumeWait(c, now) =>
      AcquireStep(s, s.calls[c].instance, s.calls[c].req, now, s');
      QuietKeeps(s, s', c);
    case ExpireWait(c) =>
      QuietKeeps(s, s', c);
    case PurgeWait(c) =>
      PurgeKeeps(s, c, s');
  }

  lemma {:induction false} RunInv(trace: seq<System>, steps: seq<Step>, k: nat)
    requires IsRun(trace, steps) && k < |trace|
    ensures Inv(trace[k])
  {
    if k == 0 {
      forall i ensures START.mgr.State(i) == EMPTY && Leases(START.mgr.State(i)) == [] {
      }
    } else {
      RunInv(trace, steps, k - 1);
      StepKeeps(trace[k - 1], steps[k - 1], trace[k]);
    }
  }
}
