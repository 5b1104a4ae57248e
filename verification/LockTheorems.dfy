/** What holds in every run of the lock manager. */
module LockTheorems {
  import opened Common
  import opened LockSpec
  import opened LockRuns
  import LM = LockManager

  // ----- Leases -----

  /** The leases granted and not yet ended are exactly those stored, each stored once. */
  lemma LedgerIsStored(trace: seq<System>, steps: seq<Step>, k: nat)
    requires IsRun(trace, steps) && k < |trace|
    ensures forall i, o :: (i, o) in trace[k].ledger <==> o in Leases(trace[k].mgr.State(i))
    ensures forall i :: DistinctSessions(Leases(trace[k].mgr.State(i)))
  {
    hide Next;
    RunInv(trace, steps, k);
    forall i ensures DistinctSessions(Leases(trace[k].mgr.State(i))) {
      assert LeaseInv(trace[k].mgr.State(i));
      LeasesDistinct(trace[k].mgr.State(i));
    }
  }

  /** Two leases on one instance are observer leases of two sessions. */
  lemma MutualExclusion(trace: seq<System>, steps: seq<Step>, k: nat, i: InstanceId, a: LockInfo, b: LockInfo)
    requires IsRun(trace, steps) && k < |trace|
    requires (i, a) in trace[k].ledger && (i, b) in trace[k].ledger && a != b
    ensures a.lockType == Observer && b.lockType == Observer && a.session != b.session
  {
    hide Next;
    RunInv(trace, steps, k);
    var st := trace[k].mgr.State(i);
    assert LeaseInv(st) && a in Leases(st) && b in Leases(st);
    LeasesDistinct(st);
    var x :| 0 <= x < |Leases(st)| && Leases(st)[x] == a;
    SessionUnique(Leases(st), x, b);
  }

  /** In a reachable state an acquire succeeds exactly when no other session's lease conflicts with it. */
  lemma AcquireSucceedsIffUnblocked(
    trace: seq<System>, steps: seq<Step>, k: nat, i: InstanceId, req: Request, now: int)
    requires IsRun(trace, steps) && k < |trace|
    ensures AcquireIn(trace[k].mgr, i, req, now).1.ToResult().Ok? <==>
            forall o :: (i, o) in trace[k].ledger && o.session != req.session ==>
              o.lockType == Observer && req.lockType == Observer
  {
    hide Next;
    RunInv(trace, steps, k);
    var st := trace[k].mgr.State(i);
    assert LeaseInv(st);
    assert forall o :: (i, o) in trace[k].ledger <==> o in Leases(st);
    AcquireIffUnblocked(st, req, now, trace[k].mgr.nextToken);
  }

  lemma AcquireIffUnblocked(st: LockState, req: Request, now: int, token: LockToken)
    requires LeaseInv(st)
    ensures LockSpec.Acquire(st, req, now, token).1.Refused? <==> Blocked(st, req.session, req.lockType)
  {
  }

  /**
   What a successful acquire returns.  A session that holds a lease covering the request gets that
   lease, with the new expiry and perhaps a new agent; any other gets a new lease as asked for.  Either
   way it lasts for the time asked from now on, or for two minutes when that is beyond 2^63 - 1 ms.
   */
  lemma AcquiredLeaseCovers(
    trace: seq<System>, steps: seq<Step>, k: nat, i: InstanceId, req: Request, now: int)
    requires IsRun(trace, steps) && k < |trace|
    requires AcquireIn(trace[k].mgr, i, req, now).1.ToResult().Ok?
    ensures var (m', outcome) := AcquireIn(trace[k].mgr, i, req, now);
            var info, m := outcome.info, trace[k].mgr;
            && (forall o :: o in Leases(m'.State(i)) <==>
                  o == info || (o in Leases(m.State(i)) && o.session != req.session))
            && info.session == req.session
            && info.expiresAt == now + (if req.ttlMillis <= 0x7FFF_FFFF_FFFF_FFFF then req.ttlMillis else 120_000)
            && (info.lockType == req.lockType || info.lockType == Exclusive)
            && AcquiredFrom(m.State(i), req, now, m.nextToken, outcome)
            && m'.nextToken == m.nextToken + (if outcome.Granted? then 1 else 0)
            && (forall j :: j != i ==> m'.Entry(j) == m.Entry(j))
  {
    hide Next, LockSpec.Acquire, DistinctSessions, AcquiredFrom;
    RunInv(trace, steps, k);
    assert LeaseInv(trace[k].mgr.State(i));
    AcquireLeases(trace[k].mgr.State(i), req, now, trace[k].mgr.nextToken);
    AcquiredInfo(trace[k].mgr.State(i), req, now, trace[k].mgr.nextToken);
  }

  /** Which lease an acquire renews, and otherwise what the new lease says. */
  ghost predicate AcquiredFrom(st: LockState, req: Request, now: int, token: LockToken, outcome: AcquireOutcome)
    requires !outcome.Refused?
  {
    var info := outcome.info;
    && (outcome.RenewedLease? <==>
          exists o :: o in Leases(st) && o.session == req.session
                      && (o.lockType == Exclusive || req.lockType == Observer))
    && (outcome.RenewedLease? ==>
          exists o :: o in Leases(st) && o.session == req.session
                      && info == o.(expiresAt := info.expiresAt,
                                    agent := if req.agent.Some? then req.agent else o.agent))
    && (outcome.Granted? ==>
          info == LockInfo(req.session, req.agent, req.lockType, token, now, info.expiresAt, req.auto))
  }

  lemma AcquiredInfo(st: LockState, req: Request, now: int, token: LockToken)
    requires LeaseInv(st)
    ensures var outcome := LockSpec.Acquire(st, req, now, token).1;
            !outcome.Refused? ==>
              && outcome.info.session == req.session
              && outcome.info.expiresAt
                 == now + (if req.ttlMillis <= 0x7FFF_FFFF_FFFF_FFFF then req.ttlMillis else 120_000)
              && (outcome.info.lockType == req.lockType || outcome.info.lockType == Exclusive)
              && AcquiredFrom(st, req, now, token, outcome)
  {
    hide DistinctSessions, LockSpec.Acquire;
    var k := FirstPicked(st.observers, Named(req.session, None));
    assert Leases(st) == if st.exclusive.Some? then [st.exclusive.value] else st.observers;
    if st.exclusive.Some? && st.exclusive.value.session == req.session {
      LM.AcquireHoldingExclusive(st, req, now, token);
      assert st.exclusive.value in Leases(st);
    } else if st.exclusive.None? && req.lockType == Observer && k < |st.observers| {
      LM.AcquireObserving(st, k, req, now, token);
      assert st.observers[k] in Leases(st);
    } else {
      LM.AcquireUncovered(st, req, now, token);
    }
  }

  /**
   A refusal names the first stored lease.  That is the caller's own lease exactly when an observer
   asks for an exclusive lease, is the first of several observers, and so is blocked by the others.
   */
  lemma RefusalNamesHolder(
    trace: seq<System>, steps: seq<Step>, k: nat, i: InstanceId, req: Request, now: int)
    requires IsRun(trace, steps) && k < |trace|
    requires AcquireIn(trace[k].mgr, i, req, now).1.Refused?
    ensures var st, error := trace[k].mgr.State(i), AcquireIn(trace[k].mgr, i, req, now).1.error;
            && Leases(st) != []
            && error == InstanceLocked(Leases(st)[0].session, Leases(st)[0].agent, Leases(st)[0].expiresAt)
            && (error.holderSession == req.session <==>
                  req.lockType == Exclusive && |Leases(st)| > 1 && Leases(st)[0].session == req.session)
            && (forall j :: AcquireIn(trace[k].mgr, i, req, now).0.State(j) == trace[k].mgr.State(j))
  {
    hide Next, LockSpec.Acquire;
    RunInv(trace, steps, k);
    assert LeaseInv(trace[k].mgr.State(i));
    RefusalOf(trace[k].mgr.State(i), req, now, trace[k].mgr.nextToken);
    AcquireLeases(trace[k].mgr.State(i), req, now, trace[k].mgr.nextToken);
  }

  lemma RefusalOf(st: LockState, req: Request, now: int, token: LockToken)
    requires LeaseInv(st) && LockSpec.Acquire(st, req, now, token).1.Refused?
    ensures var error := LockSpec.Acquire(st, req, now, token).1.error;
            && Leases(st) != []
            && error == InstanceLocked(Leases(st)[0].session, Leases(st)[0].agent, Leases(st)[0].expiresAt)
            && (error.holderSession == req.session <==>
                  req.lockType == Exclusive && |Leases(st)| > 1 && Leases(st)[0].session == req.session)
  {
    hide DistinctSessions, LockSpec.Acquire;
    var k := FirstPicked(st.observers, Named(req.session, None));
    if st.exclusive.Some? && st.exclusive.value.session == req.session {
      LM.AcquireHoldingExclusive(st, req, now, token);
    } else if st.exclusive.None? && req.lockType == Observer && k < |st.observers| {
      LM.AcquireObserving(st, k, req, now, token);
    } else {
      LM.AcquireUncovered(st, req, now, token);
    }
    assert Leases(st) == if st.exclusive.Some? then [st.exclusive.value] else st.observers;
  }

  /** Two sessions observe, the first asks for more, and is told that it is itself in the way. */
  lemma RefusalNamesCaller(i: InstanceId, a: SessionId, b: SessionId) returns (trace: seq<System>, steps: seq<Step>)
    requires a != b
    ensures IsRun(trace, steps) && |trace| == 3
    ensures var outcome := AcquireIn(trace[2].mgr, i, Request(a, None, Exclusive, 0, false), 0).1;
            outcome.Refused? && outcome.error.holderSession == a
  {
    hide AfterAcquire, Next, LockSpec.Acquire, LeaseInv;
    var first, second := Request(a, None, Observer, 0, false), Request(b, None, Observer, 0, false);
    var s1 := AfterAcquire(START, i, first);
    var s2 := AfterAcquire(s1, i, second);
    trace, steps := [START, s1, s2], [TryAcquire(i, first, 0), TryAcquire(i, second, 0)];
    NobodyHolds();
    AcquireIsStep(START, i, first);
    AcquireIsStep(s1, i, second);
    ObserverJoins(START, i, first);
    ObserverJoins(s1, i, second);
    BothInTheWay(s2.mgr.State(i), a, b, s2.mgr.nextToken);
  }

  lemma NobodyHolds()
    ensures LeaseInv(EMPTY) && INITIAL.locks == map[]
  {
  }

  lemma AcquireIsStep(s: System, i: InstanceId, req: Request)
    ensures Next(s, TryAcquire(i, req, 0), AfterAcquire(s, i, req))
  {
    hide LockSpec.Acquire;
  }

  lemma ObserverJoins(s: System, i: InstanceId, req: Request)
    requires LeaseInv(s.mgr.State(i)) && s.mgr.State(i).exclusive.None? && req.lockType == Observer
    requires forall o :: o in s.mgr.State(i).observers ==> o.session != req.session
    ensures var st, st' := s.mgr.State(i), AfterAcquire(s, i, req).mgr.State(i);
            st' == st.(observers := st.observers + [NewLease(req, 0, s.mgr.nextToken)]) && LeaseInv(st')
  {
    hide LockSpec.Acquire, LeaseInv;
    LM.AcquireUncovered(s.mgr.State(i), req, 0, s.mgr.nextToken);
    LM.AcquireKeepsInv(s.mgr.State(i), req, 0, s.mgr.nextToken);
  }

  lemma BothInTheWay(st: LockState, a: SessionId, b: SessionId, token: LockToken)
    requires LeaseInv(st) && st.exclusive.None? && |st.observers| == 2 && a != b
    requires st.observers[0].session == a && st.observers[1].session == b
    ensures var outcome := LockSpec.Acquire(st, Request(a, None, Exclusive, 0, false), 0, token).1;
            outcome.Refused? && outcome.error.holderSession == a
  {
    hide LockSpec.Acquire, DistinctSessions;
    LM.AcquireUncovered(st, Request(a, None, Exclusive, 0, false), 0, token);
    assert st.observers[1] in st.observers;
  }

  function AfterAcquire(s: System, i: InstanceId, req: Request): System {
    var (m, outcome) := AcquireIn(s.mgr, i, req, 0);
    s.(mgr := m, ledger := LedgerAcquire(s.ledger, i, outcome.ToResult()))
  }

  /** A renewal moves the expiry of one matching lease, if there is any, and changes nothing else. */
  lemma RenewalIsExact(trace: seq<System>, steps: seq<Step>, k: nat, i: InstanceId, session: SessionId,
                       token: Option<LockToken>, ttl: nat, now: int)
    requires IsRun(trace, steps) && k < |trace|
    ensures var m := trace[k].mgr;
            var (m', r) := RenewIn(m, i, session, token, ttl, now);
            var expiresAt := now + (if ttl <= 0x7FFF_FFFF_FFFF_FFFF then ttl else 120_000);
            && (r.Ok? <==> exists o :: o in Leases(m.State(i))
                                       && (o.session == session || token == Some(o.token)))
            && (r.Err? ==> m' == m && r.error == NotHeld(i))
            && (r.Ok? ==> r.value.expiresAt == expiresAt
                          && (r.value.session == session || token == Some(r.value.token))
                          && RenewedOne(m.State(i), m'.State(i), session, token, expiresAt, r.value))
            && (forall j :: j != i ==> m'.Entry(j) == m.Entry(j))
  {
    hide Next, LeaseInv, RenewEntry, RenewedOne;
    RunInv(trace, steps, k);
    var st := trace[k].mgr.State(i);
    assert LeaseInv(st);
    RenewedExactly(st, session, token, Expiry(now, ttl));
    if i !in trace[k].mgr.locks {
      assert Leases(st) == [];
    }
  }

  /** The first lease that matches has the new expiry. */
  ghost predicate RenewedOne(
    st: LockState, st': LockState, session: SessionId, token: Option<LockToken>, expiresAt: int, info: LockInfo)
  {
    && st'.waitQueue == st.waitQueue && |Leases(st')| == |Leases(st)|
    && exists k ::
         && 0 <= k < |Leases(st)|
         && (Leases(st)[k].session == session || token == Some(Leases(st)[k].token))
         && (forall j :: 0 <= j < k ==> Leases(st)[j].session != session && token != Some(Leases(st)[j].token))
         && info == Leases(st)[k].(expiresAt := expiresAt) && Leases(st') == Leases(st)[k := info]
  }

  lemma RenewedExactly(st: LockState, session: SessionId, token: Option<LockToken>, expiresAt: int)
    requires LeaseInv(st)
    ensures var (st', info) := RenewEntry(st, session, token, expiresAt);
            && (info.Some? <==> exists o :: o in Leases(st) && (o.session == session || token == Some(o.token)))
            && (info.Some? ==> info.value.expiresAt == expiresAt
                               && (info.value.session == session || token == Some(info.value.token))
                               && RenewedOne(st, st', session, token, expiresAt, info.value))
  {
    hide DistinctSessions;
    var k := FirstPicked(Leases(st), Named(session, token));
    if k < |Leases(st)| {
      assert Leases(st)[k] in Leases(st);
      var info := Leases(st)[k].(expiresAt := expiresAt);
      assert Leases(ReplaceLease(st, k, info)) == Leases(st)[k := info];
    }
  }

  /** One step: a lease in the ledger was granted by the step or is an older lease, perhaps renewed. */
  ghost predicate LeasesContinue(s: System, s': System) {
    && s.mgr.nextToken <= s'.mgr.nextToken
    && forall y :: y in s'.ledger ==>
         y.1.token >= s.mgr.nextToken || exists o :: (y.0, o) in s.ledger && SameLease(o, y.1)
  }

  lemma StepContinues(s: System, step: Step, s': System)
    requires Inv(s) && Next(s, step, s')
    ensures LeasesContinue(s, s')
  {
    hide LeaseInv, CallsOk;
    match step
    case TryAcquire(i, req, now) => AcquireContinues(s, i, req, now, s');
    case BeginWait(i, req, now) => AcquireContinues(s, i, req, now, s');
    case ResumeWait(c, now) => AcquireContinues(s, s.calls[c].instance, s.calls[c].req, now, s');
    case Renew(i, session, token, ttl, now) =>
      var st := s.mgr.State(i);
      var k := FirstPicked(Leases(st), Named(session, token));
      if i in s.mgr.locks && k < |Leases(st)| {
        assert Leases(st)[k] in Leases(st) && (i, Leases(st)[k]) in s.ledger;
        forall y | y in s'.ledger ensures exists o :: (y.0, o) in s.ledger && SameLease(o, y.1) {
          if y in s.ledger {
            assert SameLease(y.1, y.1);
          } else {
            assert SameLease(Leases(st)[k], y.1);
          }
        }
      } else {
        OldLeasesContinue(s, s');
      }
    case _ => OldLeasesContinue(s, s');
  }

  lemma OldLeasesContinue(s: System, s': System)
    requires s'.ledger <= s.ledger && s'.mgr.nextToken == s.mgr.nextToken
    ensures LeasesContinue(s, s')
  {
  }

  lemma AcquireContinues(s: System, i: InstanceId, req: Request, now: int, s': System)
    requires Inv(s) && AcquireNext(s, i, req, now, s')
    ensures LeasesContinue(s, s')
  {
    hide LockSpec.Acquire, CallsOk;
    assert LeaseInv(s.mgr.State(i));
    AcquireLeases(s.mgr.State(i), req, now, s.mgr.nextToken);
    var outcome := AcquireIn(s.mgr, i, req, now).1;
    forall y | y in s'.ledger
      ensures y.1.token >= s.mgr.nextToken || exists o :: (y.0, o) in s.ledger && SameLease(o, y.1)
    {
      if y in s.ledger {
        assert SameLease(y.1, y.1);
      } else if outcome.RenewedLease? {
        var o :| o in Leases(s.mgr.State(i)) && o.session == req.session && SameLease(o, outcome.info);
        assert (i, o) in s.ledger;
      }
    }
  }

  /** A token names one lease for the whole run: one instance, one session, one type. */
  lemma {:induction false} TokenNamesOneLease(
    trace: seq<System>, steps: seq<Step>, j: nat, k: nat, y: (InstanceId, LockInfo))
    requires IsRun(trace, steps) && j <= k < |trace|
    requires y in trace[k].ledger && y.1.token < trace[j].mgr.nextToken
    ensures exists o :: (y.0, o) in trace[j].ledger && SameLease(o, y.1)
    decreases k
  {
    hide Next, Inv;
    if j == k {
      assert SameLease(y.1, y.1);
    } else {
      RunInv(trace, steps, k - 1);
      StepContinues(trace[k - 1], steps[k - 1], trace[k]);
      TokensGrow(trace, steps, j, k - 1);
      var o :| (y.0, o) in trace[k - 1].ledger && SameLease(o, y.1);
      TokenNamesOneLease(trace, steps, j, k - 1, (y.0, o));
    }
  }

  lemma {:induction false} TokensGrow(trace: seq<System>, steps: seq<Step>, j: nat, k: nat)
    requires IsRun(trace, steps) && j <= k < |trace|
    ensures trace[j].mgr.nextToken <= trace[k].mgr.nextToken
    decreases k
  {
    hide Next, Inv;
    if j < k {
      TokensGrow(trace, steps, j, k - 1);
      RunInv(trace, steps, k - 1);
      StepContinues(trace[k - 1], steps[k - 1], trace[k]);
    }
  }

  /** A lease that was released, reaped or replaced by an upgrade never comes back. */
  lemma EndedLeaseStaysEnded(trace: seq<System>, steps: seq<Step>, j: nat, k: nat, token: LockToken)
    requires IsRun(trace, steps) && j <= k < |trace|
    requires token < trace[j].mgr.nextToken && forall x :: x in trace[j].ledger ==> x.1.token != token
    ensures forall y :: y in trace[k].ledger ==> y.1.token != token
  {
    forall y | y in trace[k].ledger ensures y.1.token != token {
      if y.1.token == token {
        TokenNamesOneLease(trace, steps, j, k, y);
      }
    }
  }

  // ----- Waiters -----

  /** Per instance, notified waiters and then those still queued are in arrival order, each once. */
  lemma NotifiedInArrivalOrder(trace: seq<System>, steps: seq<Step>, k: nat, i: InstanceId)
    requires IsRun(trace, steps) && k < |trace|
    ensures var m := trace[k].mgr;
            && IsSubsequence(LogOf(m.notified, i) + m.State(i).waitQueue, LogOf(m.arrivals, i))
            && TicketsDistinct(LogOf(m.notified, i) + m.State(i).waitQueue)
  {
    hide Next;
    RunInv(trace, steps, k);
    var m := trace[k].mgr;
    assert InstanceOk(m, trace[k].calls, i);
    ServedDistinct(LogOf(m.notified, i) + m.State(i).waitQueue, LogOf(m.arrivals, i));
  }

  /** No waiter is notified while one that arrived before it at the same instance is still queued. */
  lemma NoOvertaking(trace: seq<System>, steps: seq<Step>, k: nat, i: InstanceId, early: nat, late: nat)
    requires IsRun(trace, steps) && k < |trace|
    requires early < late < |LogOf(trace[k].mgr.arrivals, i)|
    requires LogOf(trace[k].mgr.arrivals, i)[late] in LogOf(trace[k].mgr.notified, i)
    ensures LogOf(trace[k].mgr.arrivals, i)[early] !in trace[k].mgr.State(i).waitQueue
  {
    hide Next;
    RunInv(trace, steps, k);
    var m := trace[k].mgr;
    assert InstanceOk(m, trace[k].calls, i);
    var n, q, a := LogOf(m.notified, i), m.State(i).waitQueue, LogOf(m.arrivals, i);
    if a[early] in q {
      var x :| 0 <= x < |n| && n[x] == a[late];
      var y :| 0 <= y < |q| && q[y] == a[early];
      assert NoDup(a);
      assert (n + q)[x] == a[late] && (n + q)[|n| + y] == a[early];
      SubsequenceOrder(n + q, a, x, |n| + y, late, early);
    }
  }

  /** A call that has finished has no entry left in any queue. */
  lemma FinishedLeavesNoEntry(trace: seq<System>, steps: seq<Step>, k: nat, c: Ticket, i: InstanceId)
    requires IsRun(trace, steps) && k < |trace|
    requires c in trace[k].calls && trace[k].calls[c].phase.Finished?
    ensures !InLog(trace[k].mgr.State(i).waitQueue, c)
  {
    hide Next;
    RunInv(trace, steps, k);
    assert InstanceOk(trace[k].mgr, trace[k].calls, i);
    forall w | w in trace[k].mgr.State(i).waitQueue ensures w.ticket != c {
      assert IsQueued(trace[k].calls, w);
    }
  }

  /**
   A call that ends in Timeout takes every queue entry of its session on its instance away and no other,
   keeps the order of the rest, and touches no lease and no other instance.
   */
  lemma TimeoutPurgesSession(trace: seq<System>, steps: seq<Step>, k: nat, c: Ticket)
    requires IsRun(trace, steps) && k < |steps| && steps[k] == PurgeWait(c)
    ensures c in trace[k].calls && c in trace[k + 1].calls
    ensures var call, m, m' := trace[k].calls[c], trace[k].mgr, trace[k + 1].mgr;
            var q, q' := m.State(call.instance).waitQueue, m'.State(call.instance).waitQueue;
            && trace[k + 1].calls[c].phase == Finished(Err(Timeout(call.instance)))
            && (forall w :: w in q' <==> w in q && w.session != call.req.session)
            && IsSubsequence(q', q)
            && (forall i :: Leases(m'.State(i)) == Leases(m.State(i)))
            && (forall i :: i != call.instance ==> m'.Entry(i) == m.Entry(i))
            && m'.notified == m.notified
  {
    assert Next(trace[k], steps[k], trace[k + 1]);
    PurgeIsExact(trace[k].mgr, trace[k].calls[c].instance, trace[k].calls[c].req.session);
  }

  lemma PurgeIsExact(m: Manager, i: InstanceId, session: SessionId)
    ensures var m' := RemoveFromQueueIn(m, i, session);
            var q, q' := m.State(i).waitQueue, m'.State(i).waitQueue;
            && (forall w :: w in q' <==> w in q && w.session != session) && IsSubsequence(q', q)
            && (forall j :: Leases(m'.State(j)) == Leases(m.State(j)))
            && (forall j :: j != i ==> m'.Entry(j) == m.Entry(j))
  {
    hide IsSubsequence;
    OthersMembers(m.State(i).waitQueue, session);
    OthersInOrder(m.State(i).waitQueue, session);
    assert i !in m.locks ==> m.State(i).waitQueue == [];
  }

  /** A call that entered the queue and did not time out was notified. */
  lemma WaitEndsBySignal(trace: seq<System>, steps: seq<Step>, k: nat, c: Ticket)
    requires IsRun(trace, steps) && k < |trace| && c in trace[k].calls
    requires var call := trace[k].calls[c];
             && call.phase.Finished? && call.phase.result != Err(Timeout(call.instance))
             && InLog(LogOf(trace[k].mgr.arrivals, call.instance), c)
    ensures InLog(LogOf(trace[k].mgr.notified, trace[k].calls[c].instance), c)
  {
    hide Next;
    RunInv(trace, steps, k);
    assert SignalOk(trace[k].mgr, trace[k].calls, c);
  }

  /** A call finishes once, with one result. */
  lemma {:induction false} FinishedIsFinal(trace: seq<System>, steps: seq<Step>, j: nat, k: nat, c: Ticket)
    requires IsRun(trace, steps) && j <= k < |trace|
    requires c in trace[j].calls && trace[j].calls[c].phase.Finished?
    ensures c in trace[k].calls && trace[k].calls[c] == trace[j].calls[c]
    decreases k
  {
    if j < k {
      FinishedIsFinal(trace, steps, j, k - 1, c);
      RunInv(trace, steps, k - 1);
      assert SignalOk(trace[k - 1].mgr, trace[k - 1].calls, c) && c < trace[k - 1].nextTicket;
      assert Next(trace[k - 1], steps[k - 1], trace[k]);
    }
  }

  /**
   One promotion: nobody while an exclusive lease is held; otherwise the maximal leading run of
   observer requests, and then one exclusive request exactly when it is next and no observer
   lease is held.
   */
  lemma PromotionShape(st: LockState)
    ensures var ws, q := PromotedWaiters(st), st.waitQueue;
            && ws <= q
            && (st.exclusive.Some? ==> ws == [])
            && (st.exclusive.None? ==>
                  exists n: nat ::
                    MaximalObserverRun(q, n) && |ws| == if n < |q| && st.observers == [] then n + 1 else n)
  {
    LeadingObserversMaximal(st.waitQueue);
  }

  /** The first `n` waiters ask to observe, and the next one, if any, does not. */
  ghost predicate MaximalObserverRun(q: seq<WaitEntry>, n: nat) {
    && n <= |q|
    && (forall k :: 0 <= k < n ==> q[k].requested == Observer)
    && (n < |q| ==> q[n].requested == Exclusive)
  }

  lemma {:induction false} LeadingObserversMaximal(q: seq<WaitEntry>)
    ensures MaximalObserverRun(q, LeadingObservers(q))
  {
    if q != [] && q[0].requested == Observer {
      LeadingObserversMaximal(q[1..]);
      var n := LeadingObservers(q[1..]);
      forall k | 0 <= k < n + 1 ensures q[k].requested == Observer {
        assert k > 0 ==> q[k] == q[1..][k - 1];
      }
    }
  }

  // ----- Cleanup -----

  /**
   Whom a step notifies that left the leases `after` and found the queue `q`: nobody when it ended no
   lease or an exclusive one is left; else the maximal leading run of observer requests, and then
   one exclusive request exactly when it is next and no lease is left.
   */
  ghost predicate PromotedOnce(ended: bool, after: seq<LockInfo>, q: seq<WaitEntry>, ws: seq<WaitEntry>) {
    && ws <= q
    && exists n: nat ::
         && MaximalObserverRun(q, n)
         && |ws| == if !ended || (exists o :: o in after && o.lockType == Exclusive) then 0
                    else if n < |q| && after == [] then n + 1
                    else n
  }

  lemma PromoteAfterExact(st: LockState, rule: Rule)
    requires LeaseInv(st)
    ensures var step := PromoteAfter(st, Strip(st, rule));
            var st' := OrEmpty(step.entry);
            && (forall o :: o in Leases(st') <==> o in Leases(st) && !Picks(rule, o))
            && step.notified + st'.waitQueue == st.waitQueue
            && PromotedOnce(exists o :: o in Leases(st) && Picks(rule, o), Leases(st'), st.waitQueue, step.notified)
            && (step.notified != [] ==> exists o :: o in Leases(st) && Picks(rule, o))
  {
    hide LeaseInv, IsSubsequence, PromotedOnce, Strip, PromoteCount;
    var stripped := Strip(st, rule);
    StripFacts(st, rule);
    PromoteEnds(st, rule);
    StrippedPromotion(stripped, stripped != st);
    assert Leases(Promoted(stripped)) == Leases(stripped);
    assert PromotedWaiters(stripped) + Promoted(stripped).waitQueue == stripped.waitQueue;
    assert [] + st.waitQueue == st.waitQueue && stripped.waitQueue == st.waitQueue by {
      StripKeepsQueue(st, rule);
    }
    assert OrEmpty(DropIfEmpty(Promoted(stripped))) == Promoted(stripped);
  }

  lemma StripKeepsQueue(st: LockState, rule: Rule)
    ensures Strip(st, rule).waitQueue == st.waitQueue
  {
  }

  lemma StrippedPromotion(st: LockState, ended: bool)
    requires LeaseInv(st)
    ensures PromotedOnce(ended, Leases(st), st.waitQueue, if ended then PromotedWaiters(st) else [])
  {
    hide DistinctSessions, MaximalObserverRun;
    LeadingObserversMaximal(st.waitQueue);
    assert st.exclusive.Some? ==> st.exclusive.value in Leases(st);
  }

  /** Unregistering a session ends its leases and waits everywhere and no other session's lease or wait. */
  lemma UnregisterIsExact(trace: seq<System>, steps: seq<Step>, k: nat, session: SessionId, i: InstanceId)
    requires IsRun(trace, steps) && k < |steps| && steps[k] == Unregister(session)
    ensures var st, st' := trace[k].mgr.State(i), trace[k + 1].mgr.State(i);
            var n, n' := LogOf(trace[k].mgr.notified, i), LogOf(trace[k + 1].mgr.notified, i);
            var ended := exists o :: o in Leases(st) && o.session == session;
            && (forall o :: o in Leases(st') <==> o in Leases(st) && o.session != session)
            && session !in trace[k + 1].mgr.activeSessions
            && n <= n' && PromotedOnce(ended, Leases(st'), st.waitQueue, n'[|n|..])
            && IsSubsequence(st'.waitQueue, st.waitQueue[|n'| - |n|..])
            && (forall w :: w in st'.waitQueue <==> w in st.waitQueue[|n'| - |n|..] && w.session != session)
  {
    hide LeaseInv, IsSubsequence, PromotedOnce;
    RunInv(trace, steps, k);
    var s, s' := trace[k], trace[k + 1];
    assert Next(s, steps[k], s');
    assert LeaseInv(s.mgr.State(i));
    TeardownExact(s.mgr.Entry(i), session);
    var m := s.mgr.(activeSessions := s.mgr.activeSessions - {session});
    var step := SweepEntry(Teardown(session), m.Entry(i));
    var n, n' := LogOf(s.mgr.notified, i), LogOf(s'.mgr.notified, i);
    assert n' == n + step.notified && n'[|n|..] == step.notified;
  }

  lemma TeardownExact(entry: Option<LockState>, session: SessionId)
    requires LeaseInv(OrEmpty(entry))
    ensures var step := SweepEntry(Teardown(session), entry);
            var st, st' := OrEmpty(entry), OrEmpty(step.entry);
            && (forall o :: o in Leases(st') <==> o in Leases(st) && o.session != session)
            && step.notified <= st.waitQueue
            && PromotedOnce(exists o :: o in Leases(st) && o.session == session, Leases(st'), st.waitQueue,
                            step.notified)
            && IsSubsequence(st'.waitQueue, st.waitQueue[|step.notified|..])
            && (forall w :: w in st'.waitQueue <==> w in st.waitQueue[|step.notified|..] && w.session != session)
  {
    hide LeaseInv, IsSubsequence, PromotedOnce, DistinctSessions, Strip;
    if entry.None? {
      NothingToPromote();
      SubsequenceRefl<WaitEntry>([]);
    } else {
      var rule, st := Named(session, None), entry.value;
      assert forall o :: Picks(rule, o) <==> o.session == session;
      PromoteAfterExact(st, rule);
      var step := PromoteAfter(st, Strip(st, rule));
      var rest := OrEmpty(step.entry).waitQueue;
      assert rest == st.waitQueue[|step.notified|..];
      OthersInOrder(rest, session);
      OthersMembers(rest, session);
      assert OrEmpty(PurgeEntry(step.entry, session)).waitQueue == OthersWaiting(rest, session);
      assert Leases(OrEmpty(PurgeEntry(step.entry, session))) == Leases(OrEmpty(step.entry));
    }
  }

  lemma NothingToPromote()
    ensures Leases(EMPTY) == [] && EMPTY.waitQueue == []
    ensures PromotedOnce(false, [], [], [])
  {
    assert MaximalObserverRun([], 0);
  }

  /**
   A release ends exactly the leases that match, on that instance alone, notifies one promotion
   exactly when there were any, loses no waiter, and then leaves no empty entry.
   */
  lemma ReleaseIsExact(trace: seq<System>, steps: seq<Step>, k: nat, i: InstanceId, session: SessionId,
                       token: Option<LockToken>)
    requires IsRun(trace, steps) && k < |steps| && steps[k] == Release(i, session, token)
    ensures var m, m' := trace[k].mgr, trace[k + 1].mgr;
            var st, st', ws := m.State(i), m'.State(i), NewlyNotified(m, m', i);
            var matched := exists o :: o in Leases(st) && (o.session == session || token == Some(o.token));
            && ReleaseIn(m, i, session, token).1 == (if matched then Ok(ws != []) else Err(NotHeld(i)))
            && (forall o :: o in Leases(st') <==>
                  o in Leases(st) && o.session != session && token != Some(o.token))
            && LogOf(m'.notified, i) == LogOf(m.notified, i) + ws
            && ws + st'.waitQueue == st.waitQueue && PromotedOnce(matched, Leases(st'), st.waitQueue, ws)
            && (matched && i in m'.locks ==> !IsEmpty(m'.locks[i]))
            && (!matched ==> st' == st)
            && (forall j :: j != i ==> m'.Entry(j) == m.Entry(j) && LogOf(m'.notified, j) == LogOf(m.notified, j))
  {
    hide LeaseInv, PromotedOnce, ReleaseEntry, ReleaseIn, Picks, Leases;
    RunInv(trace, steps, k);
    assert Next(trace[k], steps[k], trace[k + 1]);
    var m := trace[k].mgr;
    assert LeaseInv(m.State(i));
    ReleaseEntryExact(m.Entry(i), session, token);
    NamedPicks(session, token);
    ReleaseInParts(m, i, session, token);
  }

  /** The waiters of an instance that were notified between two states. */
  function NewlyNotified(m: Manager, m': Manager, i: InstanceId): seq<WaitEntry> {
    var n, n' := LogOf(m.notified, i), LogOf(m'.notified, i);
    if |n| <= |n'| then n'[|n|..] else []
  }

  lemma ReleaseInParts(m: Manager, i: InstanceId, session: SessionId, token: Option<LockToken>)
    ensures var (m', r), step := ReleaseIn(m, i, session, token), ReleaseEntry(m.Entry(i), session, token);
            && m'.Entry(i) == step.entry
            && NewlyNotified(m, m', i) == step.notified
            && LogOf(m'.notified, i) == LogOf(m.notified, i) + step.notified
            && (forall j :: j != i ==> m'.Entry(j) == m.Entry(j) && LogOf(m'.notified, j) == LogOf(m.notified, j))
            && r == if exists o :: o in Leases(m.State(i)) && Picks(Named(session, token), o)
                    then Ok(step.notified != []) else Err(NotHeld(i))
  {
    hide ReleaseEntry, Picks, Leases;
    var step := ReleaseEntry(m.Entry(i), session, token);
    var m' := ReleaseIn(m, i, session, token).0;
    assert LogOf(m'.notified, i) == LogOf(m.notified, i) + step.notified;
  }

  lemma NamedPicks(session: SessionId, token: Option<LockToken>)
    ensures forall o :: Picks(Named(session, token), o) <==> o.session == session || token == Some(o.token)
  {
  }

  lemma ReleaseEntryExact(entry: Option<LockState>, session: SessionId, token: Option<LockToken>)
    requires LeaseInv(OrEmpty(entry))
    ensures var st, rule := OrEmpty(entry), Named(session, token);
            var step := ReleaseEntry(entry, session, token);
            var st' := OrEmpty(step.entry);
            var matched := exists o :: o in Leases(st) && Picks(rule, o);
            && (forall o :: o in Leases(st') <==> o in Leases(st) && !Picks(rule, o))
            && step.notified + st'.waitQueue == st.waitQueue
            && PromotedOnce(matched, Leases(st'), st.waitQueue, step.notified)
            && (step.notified != [] ==> matched)
            && (matched && step.entry.Some? ==> !IsEmpty(step.entry.value))
            && (!matched ==> step.entry == Some(st))
  {
    hide LeaseInv, Strip, PromoteCount, IsSubsequence, PromotedOnce;
    StripFacts(OrEmpty(entry), Named(session, token));
    PromoteAfterExact(OrEmpty(entry), Named(session, token));
  }

  /** The reaper ends exactly the leases that are due, loses no waiter, drops empty entries, promotes at most once. */
  lemma ReapIsExact(trace: seq<System>, steps: seq<Step>, k: nat, now: int, i: InstanceId)
    requires IsRun(trace, steps) && k < |steps| && steps[k] == Reap(now)
    ensures var m, m' := trace[k].mgr, trace[k + 1].mgr;
            var st, st', ws := m.State(i), m'.State(i), NewlyNotified(m, m', i);
            && (forall o :: o in Leases(st') <==> o in Leases(st) && o.expiresAt > now)
            && (i in m'.locks ==> !IsEmpty(m'.locks[i]))
            && LogOf(m'.notified, i) == LogOf(m.notified, i) + ws
            && ws + st'.waitQueue == st.waitQueue
            && PromotedOnce(exists o :: o in Leases(st) && o.expiresAt <= now, Leases(st'), st.waitQueue, ws)
  {
    hide LeaseInv, PromotedOnce;
    RunInv(trace, steps, k);
    var s, s' := trace[k], trace[k + 1];
    assert Next(s, steps[k], s');
    var m, m' := s.mgr, s'.mgr;
    assert LeaseInv(m.State(i));
    ReapEntryExact(m.Entry(i), now);
    var step := SweepEntry(LockSpec.Expire(now), m.Entry(i));
    assert m.(activeSessions := m.activeSessions) == m;
    assert m'.Entry(i) == step.entry;
    assert LogOf(m'.notified, i) == LogOf(m.notified, i) + step.notified;
    assert NewlyNotified(m, m', i) == step.notified;
  }

  lemma ReapEntryExact(entry: Option<LockState>, now: int)
    requires LeaseInv(OrEmpty(entry))
    ensures var step := SweepEntry(LockSpec.Expire(now), entry);
            var st, st' := OrEmpty(entry), OrEmpty(step.entry);
            && (forall o :: o in Leases(st') <==> o in Leases(st) && o.expiresAt > now)
            && (step.entry.Some? ==> !IsEmpty(step.entry.value))
            && step.notified + st'.waitQueue == st.waitQueue
            && PromotedOnce(exists o :: o in Leases(st) && o.expiresAt <= now, Leases(st'), st.waitQueue, step.notified)
  {
    hide LeaseInv, DistinctSessions, IsSubsequence, PromotedOnce, Strip;
    if entry.None? {
      NothingToPromote();
    } else {
      assert forall o :: Picks(DueBy(now), o) <==> o.expiresAt <= now;
      PromoteAfterExact(entry.value, DueBy(now));
      var step := PromoteAfter(entry.value, Strip(entry.value, DueBy(now)));
      assert step.entry.Some? && IsEmpty(step.entry.value) ==> Leases(step.entry.value) == [];
    }
  }

  // ----- Access checks -----

  /** Without a token, observer access is what holding any lease means. */
  lemma ObserverAccessIffHeld(trace: seq<System>, steps: seq<Step>, k: nat, i: InstanceId, session: SessionId)
    requires IsRun(trace, steps) && k < |trace|
    ensures CheckAccess(trace[k].mgr, i, session, None, Observer).Ok? <==> IsHeldBy(trace[k].mgr, i, session)
  {
    hide Next;
    RunInv(trace, steps, k);
    var st := trace[k].mgr.State(i);
    assert LeaseInv(st);
    assert st.exclusive.Some? ==> Leases(st) == [st.exclusive.value];
    assert st.exclusive.None? ==> Leases(st) == st.observers;
  }

  /** A session with exclusive access is the only one that holds anything there. */
  lemma ExclusiveAccessIsSole(
    trace: seq<System>, steps: seq<Step>, k: nat, i: InstanceId, session: SessionId, other: SessionId)
    requires IsRun(trace, steps) && k < |trace|
    requires CheckAccess(trace[k].mgr, i, session, None, Exclusive).Ok?
    ensures IsHeldBy(trace[k].mgr, i, session)
    ensures IsHeldBy(trace[k].mgr, i, other) ==> other == session
  {
    hide Next;
    RunInv(trace, steps, k);
    var st := trace[k].mgr.State(i);
    assert LeaseInv(st);
    assert Leases(st) == [st.exclusive.value];
    assert st.exclusive.value in Leases(st);
  }

  /** With or without a token, access means a lease that matches and is strong enough. */
  lemma AccessMeansMatchingLease(trace: seq<System>, steps: seq<Step>, k: nat, i: InstanceId, session: SessionId,
                                 token: Option<LockToken>, required: LockType)
    requires IsRun(trace, steps) && k < |trace|
    ensures CheckAccess(trace[k].mgr, i, session, token, required).Ok? <==>
            exists o :: o in Leases(trace[k].mgr.State(i)) && (o.session == session || token == Some(o.token))
                        && (o.lockType == required || o.lockType == Exclusive)
  {
    hide Next, Picks;
    NamedPicks(session, token);
    RunInv(trace, steps, k);
    var st := trace[k].mgr.State(i);
    assert LeaseInv(st);
    assert Leases(st) == if st.exclusive.Some? then [st.exclusive.value] else st.observers;
    assert st.exclusive.Some? ==> st.exclusive.value in Leases(st);
  }

  /**
   A refused access names the exclusive holder when there is one, who then does not match; with no
   exclusive lease it says that nothing is held.
   */
  lemma RefusedAccessNamesHolder(trace: seq<System>, steps: seq<Step>, k: nat, i: InstanceId, session: SessionId,
                                 token: Option<LockToken>, required: LockType)
    requires IsRun(trace, steps) && k < |trace|
    requires CheckAccess(trace[k].mgr, i, session, token, required).Err?
    ensures var leases := Leases(trace[k].mgr.State(i));
            var error := CheckAccess(trace[k].mgr, i, session, token, required).error;
            && (forall o :: o in leases && o.lockType == Exclusive ==>
                  && o.session != session && token != Some(o.token)
                  && error == InstanceLocked(o.session, o.agent, o.expiresAt))
            && ((forall o :: o in leases ==> o.lockType == Observer) ==> error == NotHeld(i))
  {
    hide Next, Picks;
    NamedPicks(session, token);
    RunInv(trace, steps, k);
    var st := trace[k].mgr.State(i);
    assert LeaseInv(st);
    assert Leases(st) == if st.exclusive.Some? then [st.exclusive.value] else st.observers;
    assert st.exclusive.Some? ==> st.exclusive.value in Leases(st);
  }
}
