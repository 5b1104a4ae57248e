/** How long a lease lasts: over every run, until it is given up, renewed, replaced, or reaped when due. */
module LockLifetimes {
  import opened Common
  import opened LockSpec
  import opened LockRuns
  import opened LockTheorems

  /** The step releases, renews or replaces the lease `info` on instance `i`, or ends its session. */
  ghost predicate Touches(s: System, step: Step, i: InstanceId, info: LockInfo) {
    match step
    case Unregister(session) => session == info.session
    case TryAcquire(j, req, now) => j == i && req.session == info.session && !AcquireIn(s.mgr, j, req, now).1.Refused?
    case BeginWait(j, req, now) => j == i && req.session == info.session && !AcquireIn(s.mgr, j, req, now).1.Refused?
    case ResumeWait(c, now) =>
      && c in s.calls && s.calls[c].instance == i && s.calls[c].req.session == info.session
      && !AcquireIn(s.mgr, i, s.calls[c].req, now).1.Refused?
    case Release(j, session, token) => j == i && (session == info.session || token == Some(info.token))
    case Renew(j, session, token, _, _) => j == i && (session == info.session || token == Some(info.token))
    case _ => false
  }

  /** Among steps that do not touch it, a lease is ended by the reaper when it is due and by nothing else. */
  lemma UntouchedStep(s: System, step: Step, s': System, i: InstanceId, info: LockInfo)
    requires Inv(s) && Next(s, step, s') && (i, info) in s.ledger && !Touches(s, step, i, info)
    ensures (i, info) in s'.ledger <==> (step.Reap? ==> step.now < info.expiresAt)
  {
    hide Inv, Swept;
    match step
    case TryAcquire(j, req, now) => UntouchedAcquire(s, j, req, now, s', i, info);
    case BeginWait(j, req, now) => UntouchedAcquire(s, j, req, now, s', i, info);
    case ResumeWait(c, now) => UntouchedAcquire(s, s.calls[c].instance, s.calls[c].req, now, s', i, info);
    case Renew(j, session, token, ttl, now) => UntouchedRenew(s, j, session, token, ttl, now, s', i, info);
    case _ =>
  }

  lemma UntouchedAcquire(
    s: System, j: InstanceId, req: Request, now: int, s': System, i: InstanceId, info: LockInfo)
    requires Inv(s) && AcquireNext(s, j, req, now, s') && (i, info) in s.ledger
    requires j == i && req.session == info.session ==> AcquireIn(s.mgr, j, req, now).1.Refused?
    ensures (i, info) in s'.ledger
  {
    hide LockSpec.Acquire, LeaseInv, CallsOk;
    assert LeaseInv(s.mgr.State(j));
    AcquireLeases(s.mgr.State(j), req, now, s.mgr.nextToken);
  }

  lemma UntouchedRenew(s: System, j: InstanceId, session: SessionId, token: Option<LockToken>, ttl: nat, now: int,
                       s': System, i: InstanceId, info: LockInfo)
    requires Inv(s) && Next(s, Renew(j, session, token, ttl, now), s') && (i, info) in s.ledger
    requires j == i ==> session != info.session && token != Some(info.token)
    ensures (i, info) in s'.ledger
  {
    hide LeaseInv, CallsOk;
    var st := s.mgr.State(j);
    var k := FirstPicked(Leases(st), Named(session, token));
    if j == i && j in s.mgr.locks && k < |Leases(st)| {
      var o := Leases(st)[k];
      assert o in Leases(st) && (j, o) in s.ledger;
      assert o.token == info.token ==> (j, o) == (i, info);
    }
  }

  /**
   A lease that nothing touches between two states of a run is still there exactly when every reaping
   in between was before its expiry.  So the first one at or after the expiry ends it, for good.
   */
  lemma {:induction false} LeaseLastsUntilReaped(
    trace: seq<System>, steps: seq<Step>, j: nat, k: nat, i: InstanceId, info: LockInfo)
    requires IsRun(trace, steps) && j <= k < |trace|
    requires (i, info) in trace[j].ledger
    requires forall n :: j <= n < k ==> !Touches(trace[n], steps[n], i, info)
    ensures (i, info) in trace[k].ledger <==>
            forall n :: j <= n < k && steps[n].Reap? ==> steps[n].now < info.expiresAt
    decreases k
  {
    hide Next, Inv, Touches;
    if j < k {
      LeaseLastsUntilReaped(trace, steps, j, k - 1, i, info);
      RunInv(trace, steps, k - 1);
      assert Next(trace[k - 1], steps[k - 1], trace[k]);
      if (i, info) in trace[k - 1].ledger {
        UntouchedStep(trace[k - 1], steps[k - 1], trace[k], i, info);
      } else {
        GoneForGood(trace, steps, j, k - 1, i, info);
      }
    }
  }

  lemma GoneForGood(trace: seq<System>, steps: seq<Step>, j: nat, k: nat, i: InstanceId, info: LockInfo)
    requires IsRun(trace, steps) && j <= k < |steps|
    requires (i, info) in trace[j].ledger && (i, info) !in trace[k].ledger
    requires forall n :: j <= n < k ==> !Touches(trace[n], steps[n], i, info)
    ensures (i, info) !in trace[k + 1].ledger
  {
    hide Next, Touches, Inv;
    var m := LastWith(trace, steps, j, k, i, info);
    RunInv(trace, steps, m);
    assert Next(trace[m], steps[m], trace[m + 1]);
    UntouchedStep(trace[m], steps[m], trace[m + 1], i, info);
    ReapedToken(trace[m], steps[m], trace[m + 1], i, info);
    EndedLeaseStaysEnded(trace, steps, m + 1, k + 1, info.token);
  }

  lemma {:induction false} LastWith(trace: seq<System>, steps: seq<Step>, j: nat, k: nat, i: InstanceId, info: LockInfo)
    returns (m: nat)
    requires |trace| == |steps| + 1 && j <= k < |steps|
    requires (i, info) in trace[j].ledger && (i, info) !in trace[k].ledger
    ensures j <= m < k && (i, info) in trace[m].ledger && (i, info) !in trace[m + 1].ledger
  {
    m := j;
    while (i, info) in trace[m + 1].ledger
      invariant j <= m < k && (i, info) in trace[m].ledger
      decreases k - m
    {
      m := m + 1;
    }
  }

  lemma ReapedToken(s: System, step: Step, s': System, i: InstanceId, info: LockInfo)
    requires Inv(s) && Next(s, step, s') && (i, info) in s.ledger && (i, info) !in s'.ledger && step.Reap?
    ensures info.token < s'.mgr.nextToken && forall x :: x in s'.ledger ==> x.1.token != info.token
  {
    hide CallsOk, LeasesOk, LedgerOk;
  }

  /** The step answers some caller with the lease `info` on `i`, asked for at `now` for `ttl`. */
  ghost predicate Takes(s: System, step: Step, i: InstanceId, info: LockInfo, now: int, ttl: nat) {
    match step
    case TryAcquire(j, req, t) =>
      j == i && t == now && req.ttlMillis == ttl && AcquireIn(s.mgr, i, req, t).1.ToResult() == Ok(info)
    case BeginWait(j, req, t) =>
      j == i && t == now && req.ttlMillis == ttl && AcquireIn(s.mgr, i, req, t).1.ToResult() == Ok(info)
    case ResumeWait(c, t) =>
      && c in s.calls && s.calls[c].instance == i && t == now && s.calls[c].req.ttlMillis == ttl
      && AcquireIn(s.mgr, i, s.calls[c].req, t).1.ToResult() == Ok(info)
    case Renew(j, session, token, millis, t) =>
      j == i && t == now && millis == ttl && RenewIn(s.mgr, i, session, token, millis, t).1 == Ok(info)
    case _ => false
  }

  lemma TakenExpiry(s: System, step: Step, s': System, i: InstanceId, info: LockInfo, now: int, ttl: nat)
    requires Inv(s) && Next(s, step, s') && Takes(s, step, i, info, now, ttl)
    ensures (i, info) in s'.ledger
    ensures info.expiresAt == now + if ttl <= 0x7FFF_FFFF_FFFF_FFFF then ttl else 120_000
  {
    hide LeaseInv, CallsOk, LockSpec.Acquire, AcquiredFrom;
    assert LeaseInv(s.mgr.State(i));
    match step
    case TryAcquire(_, req, _) => AcquiredInfo(s.mgr.State(i), req, now, s.mgr.nextToken);
    case BeginWait(_, req, _) => AcquiredInfo(s.mgr.State(i), req, now, s.mgr.nextToken);
    case ResumeWait(c, _) => AcquiredInfo(s.mgr.State(i), s.calls[c].req, now, s.mgr.nextToken);
    case Renew(_, session, token, _, _) => RenewedExactly(s.mgr.State(i), session, token, Expiry(now, ttl));
    case _ =>
  }

  /**
   A lease taken or renewed at `now` for `ttl` milliseconds stays through every reaping before
   `now + ttl` and is ended by the first one at or after that time, unless it is released, renewed or
   replaced, or its session ends, in between.  (A ttl beyond 2^63 - 1 counts as two minutes.)
   */
  lemma TakenLeaseLasts(
    trace: seq<System>, steps: seq<Step>, j: nat, k: nat, i: InstanceId, info: LockInfo, now: int, ttl: nat)
    requires IsRun(trace, steps) && j < k < |trace| && Takes(trace[j], steps[j], i, info, now, ttl)
    requires forall n :: j < n < k ==> !Touches(trace[n], steps[n], i, info)
    ensures (i, info) in trace[k].ledger <==>
            forall n :: j < n < k && steps[n].Reap? ==>
              steps[n].now < now + if ttl <= 0x7FFF_FFFF_FFFF_FFFF then ttl else 120_000
  {
    hide Next, Inv, Touches, Takes;
    RunInv(trace, steps, j);
    assert Next(trace[j], steps[j], trace[j + 1]);
    TakenExpiry(trace[j], steps[j], trace[j + 1], i, info, now, ttl);
    LeaseLastsUntilReaped(trace, steps, j + 1, k, i, info);
  }
}
