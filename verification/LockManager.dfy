/**
 `InstanceLockManager` as the program runs it: entries are created on demand, leases are
 looked up, replaced and retained in place, waiters are popped one by one.  Every method is
 proved to compute the function of LockSpec.dfy with the same meaning.
 */
module LockManager {
  import opened Common
  import opened LockSpec

  // ----- Loops over the lists of one entry -----

  method RetainLeases(infos: seq<LockInfo>, rule: Rule) returns (kept: seq<LockInfo>)
    ensures kept == Surviving(infos, rule)
  {
    kept := [];
    for k := 0 to |infos|
      invariant kept == Surviving(infos[..k], rule)
    {
      assert infos[..k + 1][..k] == infos[..k];
      if !Picks(rule, infos[k]) {
        kept := kept + [infos[k]];
      }
    }
    assert infos[..|infos|] == infos;
  }

  method RetainWaiters(q: seq<WaitEntry>, session: SessionId) returns (kept: seq<WaitEntry>)
    ensures kept == OthersWaiting(q, session)
  {
    kept := [];
    for k := 0 to |q|
      invariant kept == OthersWaiting(q[..k], session)
    {
      assert q[..k + 1][..k] == q[..k];
      if q[k].session != session {
        kept := kept + [q[k]];
      }
    }
    assert q[..|q|] == q;
  }

  method Find(infos: seq<LockInfo>, rule: Rule) returns (k: nat)
    ensures k == FirstPicked(infos, rule)
  {
    k := 0;
    while k < |infos| && !Picks(rule, infos[k])
      invariant k <= |infos|
      invariant FirstPicked(infos, rule) == k + FirstPicked(infos[k..], rule)
    {
      k := k + 1;
    }
  }

  // ----- What the readers-writer rule says, branch by branch of the program -----

  lemma AcquireHoldingExclusive(st: LockState, req: Request, now: int, token: LockToken)
    requires LeaseInv(st) && st.exclusive.Some? && st.exclusive.value.session == req.session
    ensures var info := Renewed(st.exclusive.value, req.agent, Expiry(now, req.ttlMillis));
            Acquire(st, req, now, token) == (st.(exclusive := Some(info)), RenewedLease(info))
  {
  }

  lemma AcquireObserving(st: LockState, k: nat, req: Request, now: int, token: LockToken)
    requires st.exclusive.None? && req.lockType == Observer
    requires k == FirstPicked(st.observers, Named(req.session, None)) && k < |st.observers|
    ensures var info := Renewed(st.observers[k], req.agent, Expiry(now, req.ttlMillis));
            Acquire(st, req, now, token) == (st.(observers := st.observers[k := info]), RenewedLease(info))
  {
    assert Leases(st) == st.observers;
    assert st.observers[k] in Leases(st);
  }

  lemma AcquireUncovered(st: LockState, req: Request, now: int, token: LockToken)
    requires LeaseInv(st)
    requires st.exclusive.Some? ==> st.exclusive.value.session != req.session
    requires req.lockType == Observer ==> forall o :: o in st.observers ==> o.session != req.session
    ensures st.exclusive.Some? ==>
              var blocker := st.exclusive.value;
              Acquire(st, req, now, token)
              == (st, Refused(InstanceLocked(blocker.session, blocker.agent, blocker.expiresAt)))
    ensures st.exclusive.None? && req.lockType == Observer ==>
              var info := NewLease(req, now, token);
              Acquire(st, req, now, token) == (st.(observers := st.observers + [info]), Granted(info))
    ensures st.exclusive.None? && req.lockType == Exclusive ==>
              if forall o :: o in st.observers ==> o.session == req.session then
                var info := NewLease(req, now, token);
                Acquire(st, req, now, token) == (st.(exclusive := Some(info), observers := []), Granted(info))
              else
                var blocker := st.observers[0];
                Acquire(st, req, now, token)
                == (st, Refused(InstanceLocked(blocker.session, blocker.agent, blocker.expiresAt)))
  {
  }

  lemma AcquireKeepsInv(st: LockState, req: Request, now: int, token: LockToken)
    requires LeaseInv(st)
    ensures LeaseInv(Acquire(st, req, now, token).0)
  {
    var k := FirstPicked(st.observers, Named(req.session, None));
    if st.exclusive.Some? && st.exclusive.value.session == req.session {
      AcquireHoldingExclusive(st, req, now, token);
    } else if req.lockType == Observer && k < |st.observers| {
      AcquireObserving(st, k, req, now, token);
    } else {
      AcquireUncovered(st, req, now, token);
    }
  }

  /** `acquire_inner` on the entry it has locked; `token` is what `LockToken::new` would return. */
  method AcquireOn(before: LockState, req: Request, now: int, token: LockToken)
    returns (state: LockState, outcome: AcquireOutcome)
    requires LeaseInv(before)
    ensures (state, outcome) == Acquire(before, req, now, token)
  {
    state := before;
    var expires := Expiry(now, req.ttlMillis);

    // A session that already holds the requested type renews it.
    if state.exclusive.Some? && state.exclusive.value.session == req.session {
      AcquireHoldingExclusive(before, req, now, token);
      var exc := state.exclusive.value.(expiresAt := expires);
      if req.agent.Some? {
        exc := exc.(agent := req.agent);
      }
      return state.(exclusive := Some(exc)), RenewedLease(exc);
    }
    if req.lockType == Observer {
      var k := Find(state.observers, Named(req.session, None));
      if k < |state.observers| {
        AcquireObserving(before, k, req, now, token);
        var existing := state.observers[k].(expiresAt := expires);
        if req.agent.Some? {
          existing := existing.(agent := req.agent);
        }
        return state.(observers := state.observers[k := existing]), RenewedLease(existing);
      }
    }

    AcquireUncovered(before, req, now, token);
    var info := NewLease(req, now, token);
    match req.lockType {
      case Exclusive =>
        if state.exclusive.Some? || state.observers != [] {
          var isSelfUpgrade :=
            state.exclusive.None? && |state.observers| == 1 && state.observers[0].session == req.session;
          if isSelfUpgrade {
            state := state.(observers := []);
          } else {
            var blocker := if state.exclusive.Some? then state.exclusive.value else state.observers[0];
            assert |state.observers| > 1 ==> state.observers[1].session != state.observers[0].session;
            return state, Refused(InstanceLocked(blocker.session, blocker.agent, blocker.expiresAt));
          }
        }
        return state.(exclusive := Some(info)), Granted(info);
      case Observer =>
        if state.exclusive.Some? {
          var exc := state.exclusive.value;
          return state, Refused(InstanceLocked(exc.session, exc.agent, exc.expiresAt));
        }
        return state.(observers := state.observers + [info]), Granted(info);
    }
  }

  /** Drops the leases a rule picks; `ended` tells whether there were any. */
  method StripLeases(before: LockState, rule: Rule) returns (entry: LockState, ended: bool)
    requires LeaseInv(before)
    ensures entry == Strip(before, rule) && LeaseInv(entry)
    ensures ended <==> entry != before
    ensures ended <==> exists o :: o in Leases(before) && Picks(rule, o)
  {
    entry, ended := before, false;
    if entry.exclusive.Some? && Picks(rule, entry.exclusive.value) {
      entry := entry.(exclusive := None);
      ended := true;
    }
    var kept := RetainLeases(entry.observers, rule);
    SurvivingLength(before.observers, rule);
    StripFacts(before, rule);
    if |kept| < |entry.observers| {
      ended := true;
    }
    entry := entry.(observers := kept);
  }

  /** Pops the waiters one promotion notifies. */
  method PopPromoted(state: LockState) returns (state': LockState, sent: seq<WaitEntry>)
    ensures state' == Promoted(state)
    ensures sent == PromotedWaiters(state)
  {
    state', sent := state, [];
    if state.exclusive.Some? {
      return;
    }
    var queue := state.waitQueue;
    var stop := false;
    while queue != [] && !stop
      invariant |sent| <= |state.waitQueue|
      invariant sent == state.waitQueue[..|sent|] && queue == state.waitQueue[|sent|..]
      invariant !stop ==> |sent| + LeadingObservers(queue) == LeadingObservers(state.waitQueue)
      invariant stop ==> |sent| == PromoteCount(state)
      decreases |queue|, !stop
    {
      var front := queue[0];
      if front.requested == Exclusive && state.observers != [] {
        stop := true;
      } else {
        stop := front.requested == Exclusive;  // only one exclusive at a time
        queue := queue[1..];
        sent := sent + [front];
      }
    }
    state' := state.(waitQueue := queue);
  }

  lemma ReapKeepsInv(before: LockState, now: int)
    requires LeaseInv(before)
    ensures var after := SweepEntry(Expire(now), Some(before)).entry; after.Some? ==> LeaseInv(after.value)
  {
    StripFacts(before, DueBy(now));
  }

  /** The reaper's work on one entry; two promotions are attempted, one can find a change. */
  method ReapOn(before: LockState, now: int) returns (state: LockState, sent: seq<WaitEntry>)
    requires before.exclusive.Some? ==> before.observers == []
    ensures EntryStep(DropIfEmpty(state), sent) == SweepEntry(Expire(now), Some(before))
  {
    state, sent := before, [];
    ghost var stripped := Strip(before, DueBy(now));
    SurvivingLength(before.observers, DueBy(now));
    if state.exclusive.Some? && state.exclusive.value.expiresAt <= now {
      state := state.(exclusive := None);
      state, sent := PopPromoted(state);
    }
    var kept := RetainLeases(state.observers, DueBy(now));
    if |kept| < |state.observers| {
      assert before.exclusive.None?;
      state := state.(observers := kept);
      assert state == stripped;
      var more;
      state, more := PopPromoted(state);
      sent := sent + more;
    }
    assert kept == state.observers;
    state := state.(observers := kept);
    assert stripped == before ==> state == before && sent == [];
    assert stripped != before ==> state == Promoted(stripped) && sent == PromotedWaiters(stripped);
  }

  lemma RenewKeepsInv(st: LockState, session: SessionId, token: Option<LockToken>, expiresAt: int)
    requires LeaseInv(st)
    ensures LeaseInv(RenewEntry(st, session, token, expiresAt).0)
  {
  }

  method RenewOn(state: LockState, session: SessionId, token: Option<LockToken>, newExpiry: int)
    returns (state': LockState, renewed: Option<LockInfo>)
    requires state.exclusive.Some? ==> state.observers == []
    ensures (state', renewed) == RenewEntry(state, session, token, newExpiry)
  {
    if state.exclusive.Some? && Picks(Named(session, token), state.exclusive.value) {
      assert Leases(state) == [state.exclusive.value];
      var info := state.exclusive.value.(expiresAt := newExpiry);
      return state.(exclusive := Some(info)), Some(info);
    }
    assert Leases(state) == if state.exclusive.Some? then [state.exclusive.value] else state.observers;
    var k := Find(state.observers, Named(session, token));
    if k < |state.observers| {
      var info := state.observers[k].(expiresAt := newExpiry);
      return state.(observers := state.observers[k := info]), Some(info);
    }
    return state, None;
  }

  class InstanceLockManager {
    var locks: map<InstanceId, LockState>
    var activeSessions: set<SessionId>
    var nextToken: LockToken

    /** What was sent: enqueued waiters, and waiters signalled through their channel. */
    var arrivals: map<InstanceId, seq<WaitEntry>>
    var notified: map<InstanceId, seq<WaitEntry>>

    ghost function View(): Manager
      reads this
    {
      Manager(locks, activeSessions, nextToken, arrivals, notified)
    }

    ghost predicate Valid()
      reads this
    {
      forall i :: i in locks ==> LeaseInv(locks[i])
    }

    constructor ()
      ensures View() == INITIAL && Valid()
    {
      locks, activeSessions, nextToken := map[], {}, 0;
      arrivals, notified := map[], map[];
    }

    method RegisterSession(session: SessionId)
      modifies this`activeSessions
      ensures View() == old(View()).(activeSessions := old(activeSessions) + {session})
    {
      activeSessions := activeSessions + {session};
    }

    method UnregisterSession(session: SessionId)
      requires Valid()
      modifies this`locks, this`notified, this`activeSessions
      ensures Valid()
      ensures Swept(old(View()).(activeSessions := old(activeSessions) - {session}), Teardown(session), View())
    {
      activeSessions := activeSessions - {session};
      ReleaseAllForSession(session);
    }

    method AcquireInner(i: InstanceId, req: Request, now: int) returns (r: Result<LockInfo, LockError>)
      requires Valid()
      modifies this`locks, this`nextToken
      ensures Valid()
      ensures View() == AcquireIn(old(View()), i, req, now).0
      ensures r == AcquireIn(old(View()), i, req, now).1.ToResult()
      ensures r.Ok? ==> r.value.expiresAt
                        == now + (if req.ttlMillis <= 0x7FFF_FFFF_FFFF_FFFF then req.ttlMillis else 120_000)
    {
      var state := if i in locks then locks[i] else EMPTY;
      AcquireKeepsInv(state, req, now, nextToken);
      var outcome;
      state, outcome := AcquireOn(state, req, now, nextToken);
      locks := locks[i := state];
      if outcome.Granted? {
        nextToken := nextToken + 1;
      }
      r := outcome.ToResult();
    }

    /** The part of `acquire_or_wait` between a refused try and the wait. */
    method Enqueue(i: InstanceId, w: WaitEntry)
      requires Valid()
      modifies this`locks, this`arrivals
      ensures Valid()
      ensures View() == EnqueueIn(old(View()), i, w)
    {
      var state := if i in locks then locks[i] else EMPTY;
      locks := locks[i := state.(waitQueue := state.waitQueue + [w])];
      arrivals := AppendLog(arrivals, i, [w]);
    }

    method RemoveFromQueue(i: InstanceId, session: SessionId)
      requires Valid()
      modifies this`locks
      ensures Valid()
      ensures View() == RemoveFromQueueIn(old(View()), i, session)
    {
      if i in locks {
        var queue := RetainWaiters(locks[i].waitQueue, session);
        locks := locks[i := locks[i].(waitQueue := queue)];
      } else {
        assert locks - {i} == locks;
      }
    }

    /** Pops waiters off `state` and signals them; the caller stores the new state. */
    method TryPromote(i: InstanceId, state: LockState) returns (state': LockState, promoted: bool)
      modifies this`notified
      ensures state' == Promoted(state)
      ensures notified == AppendLog(old(notified), i, PromotedWaiters(state))
      ensures promoted <==> PromotedWaiters(state) != []
    {
      var sent;
      state', sent := PopPromoted(state);
      notified := AppendLog(notified, i, sent);
      promoted := sent != [];
    }

    method ReleaseWithToken(i: InstanceId, session: SessionId, token: Option<LockToken>)
      returns (r: Result<bool, LockError>)
      requires Valid()
      modifies this`locks, this`notified
      ensures Valid()
      ensures View() == ReleaseIn(old(View()), i, session, token).0
      ensures r == ReleaseIn(old(View()), i, session, token).1
    {
      var entry := if i in locks then locks[i] else EMPTY;
      ghost var before := entry;
      assert before == old(View()).State(i);
      locks := locks[i := entry];
      var released;
      entry, released := StripLeases(entry, Named(session, token));
      if !released {
        assert ReleaseEntry(old(View()).Entry(i), session, token) == EntryStep(Some(before), []);
        return Err(NotHeld(i));
      }
      assert ReleaseEntry(old(View()).Entry(i), session, token)
          == EntryStep(DropIfEmpty(Promoted(entry)), PromotedWaiters(entry));
      var promoted;
      entry, promoted := TryPromote(i, entry);
      if IsEmpty(entry) {
        locks := locks - {i};
        assert locks == old(locks) - {i};
      } else {
        locks := locks[i := entry];
        assert locks == old(locks)[i := entry];
      }
      r := Ok(promoted);
    }

    method RenewWithToken(i: InstanceId, session: SessionId, token: Option<LockToken>, ttlMillis: nat, now: int)
      returns (r: Result<LockInfo, LockError>)
      requires Valid()
      modifies this`locks
      ensures Valid()
      ensures View() == RenewIn(old(View()), i, session, token, ttlMillis, now).0
      ensures r == RenewIn(old(View()), i, session, token, ttlMillis, now).1
      ensures r.Ok? ==> r.value.expiresAt
                        == now + (if ttlMillis <= 0x7FFF_FFFF_FFFF_FFFF then ttlMillis else 120_000)
    {
      if i !in locks {
        return Err(NotHeld(i));
      }
      RenewKeepsInv(locks[i], session, token, Expiry(now, ttlMillis));
      var state, renewed := RenewOn(locks[i], session, token, Expiry(now, ttlMillis));
      if renewed.None? {
        return Err(NotHeld(i));
      }
      locks := locks[i := state];
      r := Ok(renewed.value);
    }

    method CheckAccessWithToken(i: InstanceId, session: SessionId, token: Option<LockToken>, required: LockType)
      returns (r: Result<(), LockError>)
      ensures r == CheckAccess(View(), i, session, token, required)
    {
      if i !in locks {
        return Err(NotHeld(i));
      }
      var state := locks[i];
      if state.exclusive.Some? {
        var exc := state.exclusive.value;
        if Picks(Named(session, token), exc) {
          return Ok(());
        }
        return Err(InstanceLocked(exc.session, exc.agent, exc.expiresAt));
      }
      if required == Observer {
        var k := Find(state.observers, Named(session, token));
        if k < |state.observers| {
          assert state.observers[k] in state.observers;
          return Ok(());
        }
      }
      r := Err(NotHeld(i));
    }

    method HeldBy(i: InstanceId, session: SessionId) returns (held: bool)
      ensures held <==> IsHeldBy(View(), i, session)
    {
      if i !in locks {
        return false;
      }
      var state := locks[i];
      assert state.exclusive.Some? ==> state.exclusive.value in Leases(state);
      var k := Find(state.observers, Named(session, None));
      held := (state.exclusive.Some? && state.exclusive.value.session == session) || k < |state.observers|;
      assert k < |state.observers| ==> state.observers[k] in Leases(state);
    }

    method ReleaseAllForSession(session: SessionId)
      requires Valid()
      modifies this`locks, this`notified
      ensures Valid()
      ensures Swept(old(View()), Teardown(session), View())
    {
      ghost var m := View();
      var todo := locks.Keys;
      while todo != {}
        invariant todo <= m.locks.Keys && Valid()
        invariant SweptExcept(m, Drop(session), View(), todo)
        decreases todo
      {
        var i :| i in todo;
        SweptOneMore(m, Drop(session), View(), todo, i);
        ghost var step := SweepEntry(Drop(session), m.Entry(i));
        assert m.Entry(i) == View().Entry(i);
        assert ReleaseIn(View(), i, session, None).0 == ApplyAt(View(), i, step);
        var _ := ReleaseWithToken(i, session, None);
        todo := todo - {i};
      }
      ghost var dropped := View();
      PurgeSession(session);
      forall i
        ensures View().Entry(i) == SweepEntry(Teardown(session), m.Entry(i)).entry
        ensures LogOf(notified, i) == LogOf(m.notified, i) + SweepEntry(Teardown(session), m.Entry(i)).notified
      {
        assert dropped.Entry(i) == SweepEntry(Drop(session), m.Entry(i)).entry;
      }
    }

    /** The second half of `release_all_for_session`: no queue keeps a waiter of the session. */
    method PurgeSession(session: SessionId)
      requires Valid()
      modifies this`locks
      ensures Valid()
      ensures forall i :: View().Entry(i) == PurgeEntry(old(View()).Entry(i), session)
    {
      var todo := locks.Keys;
      while todo != {}
        invariant todo <= locks.Keys == old(locks).Keys && Valid()
        invariant forall i :: i in todo ==> locks[i] == old(locks)[i]
        invariant forall i :: i in locks && i !in todo ==> locks[i] == WithoutWaiter(old(locks)[i], session)
        decreases todo
      {
        var i :| i in todo;
        var queue := RetainWaiters(locks[i].waitQueue, session);
        locks := locks[i := locks[i].(waitQueue := queue)];
        todo := todo - {i};
      }
    }

    method ReapExpired(now: int)
      requires Valid()
      modifies this`locks, this`notified
      ensures Valid()
      ensures Swept(old(View()), Expire(now), View())
    {
      ghost var m := View();
      var todo := locks.Keys;
      while todo != {}
        invariant todo <= m.locks.Keys && Valid()
        invariant SweptExcept(m, Expire(now), View(), todo)
        decreases todo
      {
        var i :| i in todo;
        assert View().Entry(i) == m.Entry(i);
        SweptOneMore(m, Expire(now), View(), todo, i);
        ghost var next := ApplyAt(View(), i, SweepEntry(Expire(now), m.Entry(i)));
        ReapKeepsInv(locks[i], now);
        var state, sent := ReapOn(locks[i], now);
        notified := AppendLog(notified, i, sent);
        locks := if IsEmpty(state) then locks - {i} else locks[i := state];
        assert View() == next;
        todo := todo - {i};
      }
    }
  }
}
