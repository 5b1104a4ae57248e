/** What a call of `acquire_or_wait` is answered, over every run. */
module LockWaits {
  import opened Common
  import opened LockSpec
  import opened LockRuns
  import opened LockTheorems
  import LM = LockManager

  /** One step: calls keep their instance and request, and a new call is one that a BeginWait makes. */
  ghost predicate CallsContinue(s: System, step: Step, s': System) {
    && s.nextTicket <= s'.nextTicket
    && (forall c :: c in s.calls ==>
          c in s'.calls && s'.calls[c].instance == s.calls[c].instance && s'.calls[c].req == s.calls[c].req)
    && (forall c :: c in s'.calls && c !in s.calls ==>
          && c == s.nextTicket && step.BeginWait?
          && s'.calls[c].instance == step.instance && s'.calls[c].req == step.req)
  }

  lemma StepContinuesCalls(s: System, step: Step, s': System)
    requires Inv(s) && Next(s, step, s')
    ensures CallsContinue(s, step, s')
  {
    hide GrantsOk, Swept, LockSpec.Acquire, ReleaseIn, RenewIn, InstanceOk, SignalOk;
    assert s.nextTicket !in s.calls;
  }

  /** Every call was made once, with the request that it keeps. */
  lemma {:induction false} CallWasMade(trace: seq<System>, steps: seq<Step>, k: nat, c: Ticket) returns (m: nat)
    requires IsRun(trace, steps) && k < |trace| && c in trace[k].calls
    ensures m < k && steps[m].BeginWait? && c == trace[m].nextTicket && c !in trace[m].calls
    ensures steps[m].instance == trace[k].calls[c].instance && steps[m].req == trace[k].calls[c].req
    decreases k
  {
    hide Next, Inv;
    assert k > 0;
    RunInv(trace, steps, k - 1);
    assert Next(trace[k - 1], steps[k - 1], trace[k]);
    StepContinuesCalls(trace[k - 1], steps[k - 1], trace[k]);
    if c in trace[k - 1].calls {
      m := CallWasMade(trace, steps, k - 1, c);
    } else {
      m := k - 1;
    }
  }

  ghost predicate IsFinished(s: System, c: Ticket) {
    c in s.calls && s.calls[c].phase.Finished?
  }

  /** The lease `info` answers the request made on `i`, from `now` on. */
  ghost predicate Answers(info: LockInfo, req: Request, now: int) {
    && info.session == req.session
    && (info.lockType == req.lockType || info.lockType == Exclusive)
    && (req.agent.Some? ==> info.agent == req.agent)
    && info.expiresAt == now + if req.ttlMillis <= 0x7FFF_FFFF_FFFF_FFFF then req.ttlMillis else 120_000
  }

  /**
   What the step that returns a call says: the first or the last try answers with a lease for the request
   of that very call, which is then in the ledger; a timeout says so; the last try may be refused.
   */
  ghost predicate Returns(s: System, step: Step, s': System, c: Ticket)
    requires IsFinished(s', c)
  {
    var call := s'.calls[c];
    && (|| (step.BeginWait? && c == s.nextTicket && step.instance == call.instance && step.req == call.req)
        || (step.ResumeWait? && step.call == c)
        || (step.PurgeWait? && step.call == c))
    && (call.phase.result == Err(Timeout(call.instance)) <==> step.PurgeWait?)
    && (call.phase.result.Err? && !step.PurgeWait? ==> step.ResumeWait? && call.phase.result.error.InstanceLocked?)
    && (call.phase.result.Ok? ==>
          && !step.PurgeWait?
          && Answers(call.phase.result.value, call.req, step.now)
          && (call.instance, call.phase.result.value) in s'.ledger)
  }

  lemma ReturnStep(s: System, step: Step, s': System, c: Ticket)
    requires Inv(s) && Next(s, step, s') && !IsFinished(s, c) && IsFinished(s', c)
    ensures Returns(s, step, s', c)
  {
    hide GrantsOk, Swept, LockSpec.Acquire, ReleaseIn, RenewIn, InstanceOk, SignalOk, Answers, LeaseInv;
    match step
    case BeginWait(i, req, now) => TryAnswers(s, i, req, now);
    case ResumeWait(d, now) => TryAnswers(s, s.calls[d].instance, s.calls[d].req, now);
    case _ =>
  }

  lemma TryAnswers(s: System, i: InstanceId, req: Request, now: int)
    requires Inv(s)
    ensures var r := AcquireIn(s.mgr, i, req, now).1.ToResult();
            if r.Ok? then Answers(r.value, req, now) && (i, r.value) in LedgerAcquire(s.ledger, i, r)
            else r.error.InstanceLocked?
  {
    hide LeaseInv, CallsOk, LockSpec.Acquire;
    assert LeaseInv(s.mgr.State(i));
    AcquireLeases(s.mgr.State(i), req, now, s.mgr.nextToken);
    AcquiredInfo(s.mgr.State(i), req, now, s.mgr.nextToken);
  }

  /** Every call that has returned did so at one step, which answered its own request. */
  lemma {:induction false} WaitOutcome(trace: seq<System>, steps: seq<Step>, k: nat, c: Ticket) returns (n: nat)
    requires IsRun(trace, steps) && k < |trace| && IsFinished(trace[k], c)
    ensures n < k && !IsFinished(trace[n], c) && IsFinished(trace[n + 1], c)
    ensures trace[n + 1].calls[c] == trace[k].calls[c]
    ensures Returns(trace[n], steps[n], trace[n + 1], c)
    decreases k
  {
    hide Next, Inv, Returns;
    assert k > 0;
    if IsFinished(trace[k - 1], c) {
      FinishedIsFinal(trace, steps, k - 1, k, c);
      n := WaitOutcome(trace, steps, k - 1, c);
    } else {
      n := k - 1;
      RunInv(trace, steps, n);
      assert Next(trace[n], steps[n], trace[n + 1]);
      ReturnStep(trace[n], steps[n], trace[n + 1], c);
    }
  }

  /** The last try of a signalled call succeeds exactly when no other session's lease is in its way. */
  lemma RetryIffUnblocked(trace: seq<System>, steps: seq<Step>, k: nat, c: Ticket, now: int)
    requires IsRun(trace, steps) && k < |steps| && steps[k] == ResumeWait(c, now)
    ensures c in trace[k].calls && IsFinished(trace[k + 1], c)
    ensures var call := trace[k].calls[c];
            trace[k + 1].calls[c].phase.result.Ok? <==>
              forall o :: (call.instance, o) in trace[k].ledger && o.session != call.req.session ==>
                o.lockType == Observer && call.req.lockType == Observer
  {
    hide LockSpec.Acquire;
    assert Next(trace[k], steps[k], trace[k + 1]);
    var call := trace[k].calls[c];
    AcquireSucceedsIffUnblocked(trace, steps, k, call.instance, call.req, now);
  }

  /** Whoever is queued or was notified at an instance asks there for what its call asks for. */
  lemma ArrivalsAsk(trace: seq<System>, steps: seq<Step>, k: nat, i: InstanceId, w: WaitEntry)
    requires IsRun(trace, steps) && k < |trace| && w in LogOf(trace[k].mgr.arrivals, i)
    ensures w.ticket in trace[k].calls
    ensures var call := trace[k].calls[w.ticket];
            && call.instance == i && call.req.session == w.session
            && call.req.lockType == w.requested && call.req.agent == w.agent
  {
    hide Next;
    RunInv(trace, steps, k);
    assert InstanceOk(trace[k].mgr, trace[k].calls, i);
    assert ArrivalOk(trace[k].calls, i, w);
  }

  /** Joining the queue adds the call's own request at the end, at that instance alone, and ends no lease. */
  lemma EnqueueIsExact(trace: seq<System>, steps: seq<Step>, k: nat, c: Ticket, now: int)
    requires IsRun(trace, steps) && k < |steps| && steps[k] == EnqueueWait(c, now)
    ensures c in trace[k].calls
    ensures var call, m, m' := trace[k].calls[c], trace[k].mgr, trace[k + 1].mgr;
            var w := WaitEntry(call.req.session, call.req.agent, call.req.lockType, now, c);
            && m'.State(call.instance).waitQueue == m.State(call.instance).waitQueue + [w]
            && LogOf(m'.arrivals, call.instance) == LogOf(m.arrivals, call.instance) + [w]
            && (forall i :: Leases(m'.State(i)) == Leases(m.State(i)))
            && (forall i :: i != call.instance ==> m'.Entry(i) == m.Entry(i))
            && trace[k + 1].calls[c].phase == Queued
  {
    assert Next(trace[k], steps[k], trace[k + 1]);
  }

  /** Only a step that ends leases notifies anyone; it delivers to every blocked call what was sent. */
  lemma WhoNotifies(s: System, step: Step, s': System)
    requires Next(s, step, s')
    ensures if step.Unregister? || step.Release? || step.Reap? then
              && s'.calls == Deliver(s.calls, s'.mgr.notified)
              && forall i :: LogOf(s.mgr.notified, i) <= LogOf(s'.mgr.notified, i)
            else
              s'.mgr.notified == s.mgr.notified
  {
    hide LockSpec.Acquire, ReleaseEntry, RenewEntry, SweepEntry;
  }

  lemma StaysBlocked(s: System, step: Step, s': System, c: Ticket)
    requires Next(s, step, s') && !step.Unregister? && !step.Release? && !step.Reap?
    requires c in s.calls && s.calls[c].phase.Queued? && c < s.nextTicket
    ensures c in s'.calls && (s'.calls[c].phase.Queued? || s'.calls[c].phase.Expired?)
  {
    hide LockSpec.Acquire, RenewIn, AcquireIn;
  }

  /** A call that is blocked on its channel is signalled by the step that notifies its entry, and by no other. */
  lemma SignalledWhenNotified(trace: seq<System>, steps: seq<Step>, k: nat, c: Ticket)
    requires IsRun(trace, steps) && k < |steps| && c in trace[k].calls && trace[k].calls[c].phase.Queued?
    ensures c in trace[k + 1].calls
    ensures trace[k + 1].calls[c].phase.Signalled? <==>
            exists w :: w in NewlyNotified(trace[k].mgr, trace[k + 1].mgr, trace[k].calls[c].instance) && w.ticket == c
  {
    hide GrantsOk, Next, QueueOk;
    var s, s', i := trace[k], trace[k + 1], trace[k].calls[c].instance;
    RunInv(trace, steps, k);
    assert Next(s, steps[k], s');
    WhoNotifies(s, steps[k], s');
    assert SignalOk(s.mgr, s.calls, c) && c < s.nextTicket;
    if steps[k].Unregister? || steps[k].Release? || steps[k].Reap? {
      var n, n' := LogOf(s.mgr.notified, i), LogOf(s'.mgr.notified, i);
      assert n' == n + n'[|n|..];
      assert InstanceOk(s.mgr, s.calls, i);
      assert !InLog(n, c) by {
        assert forall w :: w in n ==> IsPastQueue(s.calls, w);
      }
      assert InLog(n', c) <==> InLog(n'[|n|..], c);
    } else {
      StaysBlocked(s, steps[k], s', c);
    }
  }

  /**
   Someone at an instance is notified only by a step that ends a lease there.  So a call that joins the
   queue after the leases in its way have ended waits for the end of a lease granted later.
   */
  lemma NotifiedWhenLeaseEnds(trace: seq<System>, steps: seq<Step>, k: nat, i: InstanceId)
    requires IsRun(trace, steps) && k < |steps|
    requires LogOf(trace[k + 1].mgr.notified, i) != LogOf(trace[k].mgr.notified, i)
    ensures exists o :: (i, o) in trace[k].ledger && (i, o) !in trace[k + 1].ledger
  {
    hide Next, Inv, PromotedOnce, IsSubsequence;
    assert Next(trace[k], steps[k], trace[k + 1]);
    WhoNotifies(trace[k], steps[k], trace[k + 1]);
    LedgerIsStored(trace, steps, k);
    LedgerIsStored(trace, steps, k + 1);
    match steps[k]
    case Unregister(session) =>
      UnregisterIsExact(trace, steps, k, session, i);
      NobodyWithoutEnd();
    case Release(j, session, token) =>
      ReleaseIsExact(trace, steps, k, j, session, token);
      NobodyWithoutEnd();
    case Reap(now) =>
      ReapIsExact(trace, steps, k, now, i);
      NobodyWithoutEnd();
    case _ =>
  }

  lemma NobodyWithoutEnd()
    ensures forall after, q, ws :: PromotedOnce(false, after, q, ws) ==> ws == []
  {
  }

  /**
   `a` holds the instance and `b` is refused; `a` releases it, and only then does `b` join the queue.
   Nothing is held, and `b` waits for a signal that no release will send.
   */
  lemma WakeUpLost(i: InstanceId, a: SessionId, b: SessionId) returns (trace: seq<System>, steps: seq<Step>)
    requires a != b
    ensures IsRun(trace, steps) && |steps| == 4 && trace[4].ledger == {}
    ensures 0 in trace[4].calls && trace[4].calls[0] == WaitCall(i, Request(b, None, Exclusive, 0, false), Queued)
  {
    hide LockSpec.Acquire, AfterAcquire, ReleaseIn, Next;
    var first, second := Request(a, None, Exclusive, 0, false), Request(b, None, Exclusive, 0, false);
    var s1 := AfterAcquire(START, i, first);
    var s2, s3, s4;
    AcquireIsStep(START, i, first);
    var lease := FirstTakesIt(i, first);
    s2 := SecondRefused(s1, i, second, lease);
    s3, s4 := ReleasedThenQueued(s2, i, second, lease);
    trace, steps := [START, s1, s2, s3, s4],
      [TryAcquire(i, first, 0), BeginWait(i, second, 0), Release(i, a, None), EnqueueWait(0, 0)];
  }

  lemma FirstTakesIt(i: InstanceId, req: Request) returns (lease: LockInfo)
    requires req.lockType == Exclusive
    ensures var s := AfterAcquire(START, i, req);
            && s.mgr.State(i) == LockState(Some(lease), [], []) && lease.session == req.session
            && lease.lockType == Exclusive
            && s.ledger == {(i, lease)} && s.calls == map[] && s.nextTicket == 0
  {
    hide LockSpec.Acquire;
    LM.AcquireUncovered(EMPTY, req, 0, 0);
    lease := NewLease(req, 0, 0);
  }

  lemma SecondRefused(s: System, i: InstanceId, req: Request, lease: LockInfo) returns (s': System)
    requires s.mgr.State(i) == LockState(Some(lease), [], []) && lease.lockType == Exclusive
    requires lease.session != req.session && s.calls == map[] && s.nextTicket == 0
    ensures Next(s, BeginWait(i, req, 0), s') && s'.mgr.State(i) == s.mgr.State(i) && s'.ledger == s.ledger
    ensures s'.calls == map[0 := WaitCall(i, req, Rejected)]
  {
    hide LockSpec.Acquire;
    LM.AcquireUncovered(s.mgr.State(i), req, 0, s.mgr.nextToken);
    s' := System(AcquireIn(s.mgr, i, req, 0).0, map[0 := WaitCall(i, req, Rejected)], 1, s.ledger);
  }

  lemma ReleasedThenQueued(s: System, i: InstanceId, req: Request, lease: LockInfo)
    returns (s': System, s'': System)
    requires s.calls == map[0 := WaitCall(i, req, Rejected)] && s.ledger == {(i, lease)}
    ensures Next(s, Release(i, lease.session, None), s') && Next(s', EnqueueWait(0, 0), s'')
    ensures s''.ledger == {} && s''.calls == map[0 := WaitCall(i, req, Queued)]
  {
    hide ReleaseIn;
    var m := ReleaseIn(s.mgr, i, lease.session, None).0;
    s' := System(m, Deliver(s.calls, m.notified), s.nextTicket,
                 LedgerEndAt(s.ledger, i, Named(lease.session, None)));
    assert s'.calls == s.calls;
    assert s'.ledger == {};
    var w := WaitEntry(req.session, req.agent, req.lockType, 0, 0);
    s'' := s'.(mgr := EnqueueIn(m, i, w), calls := SetPhase(s'.calls, 0, Queued));
  }
}
