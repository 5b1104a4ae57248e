/**
 The lease rules of one browser instance, and of the map of all instances, as functions on
 values.  Class `InstanceLockManager` (LockManager.dfy) is proved to compute these functions;
 runs of many sessions (LockRuns.dfy) are built from them.

 The rules are stated as the readers-writer discipline reads, not as the branches of the
 program read; they agree with the program in every state that satisfies `LeaseInv`.
 */
module LockSpec {
  import opened Common

  // Session ids, instance ids and agent names are only ever stored and compared.
  type SessionId(==, !new, 0)
  type InstanceId(==, !new, 0)
  type AgentName(==, !new, 0)

  /** A v4 UUID; `LockToken::new` is modelled by a counter, so new tokens are fresh. */
  type LockToken = nat

  /** Identity of the one-shot channel a waiting call blocks on. */
  type Ticket = nat

  datatype LockType = Exclusive | Observer

  datatype LockInfo = LockInfo(
    session: SessionId, agent: Option<AgentName>, lockType: LockType, token: LockToken,
    acquiredAt: int, expiresAt: int, autoAcquired: bool)

  datatype WaitEntry = WaitEntry(
    session: SessionId, agent: Option<AgentName>, requested: LockType, queuedAt: int, ticket: Ticket)

  datatype LockState = LockState(
    exclusive: Option<LockInfo>, observers: seq<LockInfo>, waitQueue: seq<WaitEntry>)

  datatype LockError =
    | InstanceLocked(holderSession: SessionId, holderAgent: Option<AgentName>, expiresAt: int)
    | NotHeld(instance: InstanceId)
    | Timeout(instance: InstanceId)

  /** The arguments of an acquire call. */
  datatype Request = Request(
    session: SessionId, agent: Option<AgentName>, lockType: LockType, ttlMillis: nat, auto: bool)

  const EMPTY := LockState(None, [], [])

  /** The largest span `chrono::Duration::from_std` accepts; longer ones fall back to 120 s. */
  const MAX_CHRONO_MILLIS := 0x7FFF_FFFF_FFFF_FFFF
  const FALLBACK_TTL_MILLIS := 120_000

  function Expiry(now: int, ttlMillis: nat): int {
    now + if ttlMillis <= MAX_CHRONO_MILLIS then ttlMillis else FALLBACK_TTL_MILLIS
  }

  predicate IsEmpty(st: LockState) {
    st.exclusive.None? && st.observers == [] && st.waitQueue == []
  }

  // ----- Leases held on one instance -----

  function Leases(st: LockState): seq<LockInfo> {
    (if st.exclusive.Some? then [st.exclusive.value] else []) + st.observers
  }

  ghost predicate DistinctSessions(infos: seq<LockInfo>) {
    forall j, k :: 0 <= j < k < |infos| ==> infos[j].session != infos[k].session
  }

  /** What every reachable state of an instance satisfies. */
  ghost predicate LeaseInv(st: LockState) {
    && (st.exclusive.Some? ==> st.observers == [] && st.exclusive.value.lockType == Exclusive)
    && (forall o :: o in st.observers ==> o.lockType == Observer)
    && DistinctSessions(st.observers)
  }

  /** Which leases a call is about: those of a session or with a token, or those that are due. */
  datatype Rule =
    | Named(session: SessionId, token: Option<LockToken>)
    | HasToken(value: LockToken)
    | DueBy(now: int)

  predicate Picks(rule: Rule, info: LockInfo) {
    match rule
    case Named(session, token) => info.session == session || (token.Some? && info.token == token.value)
    case HasToken(token) => info.token == token
    case DueBy(now) => info.expiresAt <= now
  }

  predicate Holds(st: LockState, session: SessionId) {
    exists o :: o in Leases(st) && o.session == session
  }

  predicate HoldsExclusive(st: LockState, session: SessionId) {
    exists o :: o in Leases(st) && o.session == session && o.lockType == Exclusive
  }

  /** Two leases conflict when either of them is exclusive. */
  predicate Conflicts(a: LockType, b: LockType) {
    a == Exclusive || b == Exclusive
  }

  /** Some other session holds a lease that conflicts with the request. */
  predicate Blocked(st: LockState, session: SessionId, requested: LockType) {
    exists o :: o in Leases(st) && o.session != session && Conflicts(o.lockType, requested)
  }

  // ----- Acquire -----

  function Renewed(info: LockInfo, agent: Option<AgentName>, expiresAt: int): LockInfo {
    info.(expiresAt := expiresAt, agent := if agent.Some? then agent else info.agent)
  }

  function NewLease(req: Request, now: int, token: LockToken): LockInfo {
    LockInfo(req.session, req.agent, req.lockType, token, now, Expiry(now, req.ttlMillis), req.auto)
  }

  datatype AcquireOutcome =
    | RenewedLease(info: LockInfo)
    | Granted(info: LockInfo)
    | Refused(error: LockError)
  {
    function ToResult(): Result<LockInfo, LockError> {
      if Refused? then Err(error) else Ok(info)
    }
  }

  /** Does the session already hold a lease that covers the request? */
  predicate Covered(st: LockState, req: Request) {
    HoldsExclusive(st, req.session) || (req.lockType == Observer && Holds(st, req.session))
  }

  /** Index of the first lease the rule picks, or the length when there is none. */
  function FirstPicked(infos: seq<LockInfo>, rule: Rule): (k: nat)
    ensures k <= |infos|
    ensures forall j :: 0 <= j < k ==> !Picks(rule, infos[j])
    ensures k < |infos| ==> Picks(rule, infos[k])
  {
    if infos == [] || Picks(rule, infos[0]) then 0 else 1 + FirstPicked(infos[1..], rule)
  }

  /** `info` in the place of the lease at `k` of `Leases(st)`. */
  function ReplaceLease(st: LockState, k: nat, info: LockInfo): LockState
    requires k < |Leases(st)|
  {
    if st.exclusive.None? then
      st.(observers := st.observers[k := info])
    else if k == 0 then
      st.(exclusive := Some(info))
    else
      st.(observers := st.observers[k - 1 := info])
  }

  /** The readers-writer rule: renew what covers the request, else grant unless blocked. */
  function Acquire(st: LockState, req: Request, now: int, token: LockToken): (LockState, AcquireOutcome) {
    var mine := FirstPicked(Leases(st), Named(req.session, None));
    if Covered(st, req) && mine < |Leases(st)| then
      var info := Renewed(Leases(st)[mine], req.agent, Expiry(now, req.ttlMillis));
      (ReplaceLease(st, mine, info), RenewedLease(info))
    else if Blocked(st, req.session, req.lockType) then
      var blocker := Leases(st)[0];
      (st, Refused(InstanceLocked(blocker.session, blocker.agent, blocker.expiresAt)))
    else
      var info := NewLease(req, now, token);
      (match req.lockType
       case Exclusive => LockState(Some(info), [], st.waitQueue)
       case Observer => LockState(None, st.observers + [info], st.waitQueue),
       Granted(info))
  }

  // ----- Promotion -----

  /** Length of the maximal leading run of observer requests. */
  function LeadingObservers(q: seq<WaitEntry>): (n: nat)
    ensures n <= |q|
  {
    if q == [] || q[0].requested == Exclusive then 0 else 1 + LeadingObservers(q[1..])
  }

  /** How many waiters one promotion takes off the queue. */
  function PromoteCount(st: LockState): (n: nat)
    ensures n <= |st.waitQueue|
  {
    if st.exclusive.Some? then
      0
    else
      var n := LeadingObservers(st.waitQueue);
      n + if n < |st.waitQueue| && st.observers == [] then 1 else 0
  }

  function Promoted(st: LockState): LockState {
    st.(waitQueue := st.waitQueue[PromoteCount(st)..])
  }

  function PromotedWaiters(st: LockState): seq<WaitEntry> {
    st.waitQueue[..PromoteCount(st)]
  }

  // ----- The entry of one instance: `None` when the map has no key for it -----

  /** An entry after a step, and the waiters the step notified. */
  datatype EntryStep = EntryStep(entry: Option<LockState>, notified: seq<WaitEntry>)

  function OrEmpty(entry: Option<LockState>): LockState {
    if entry.Some? then entry.value else EMPTY
  }

  /** The leases the rule does not pick, in order. */
  function Surviving(infos: seq<LockInfo>, rule: Rule): seq<LockInfo> {
    if infos == [] then
      []
    else
      var front := Surviving(infos[..|infos| - 1], rule);
      if Picks(rule, infos[|infos| - 1]) then front else front + [infos[|infos| - 1]]
  }

  /** `st` without the leases the rule picks. */
  function Strip(st: LockState, rule: Rule): LockState {
    LockState(
      if st.exclusive.Some? && Picks(rule, st.exclusive.value) then None else st.exclusive,
      Surviving(st.observers, rule),
      st.waitQueue)
  }

  /** The waiters of other sessions, in order. */
  function OthersWaiting(q: seq<WaitEntry>, session: SessionId): seq<WaitEntry> {
    if q == [] then
      []
    else
      var front := OthersWaiting(q[..|q| - 1], session);
      if q[|q| - 1].session == session then front else front + [q[|q| - 1]]
  }

  function WithoutWaiter(st: LockState, session: SessionId): LockState {
    st.(waitQueue := OthersWaiting(st.waitQueue, session))
  }

  function DropIfEmpty(st: LockState): Option<LockState> {
    if IsEmpty(st) then None else Some(st)
  }

  /** One promotion when `stripped` lost a lease of `st`, and the empty entry dropped. */
  function PromoteAfter(st: LockState, stripped: LockState): EntryStep {
    if stripped == st then
      EntryStep(Some(st), [])
    else
      EntryStep(DropIfEmpty(Promoted(stripped)), PromotedWaiters(stripped))
  }

  function ReleaseEntry(entry: Option<LockState>, session: SessionId, token: Option<LockToken>): EntryStep {
    PromoteAfter(OrEmpty(entry), Strip(OrEmpty(entry), Named(session, token)))
  }

  function PurgeEntry(entry: Option<LockState>, session: SessionId): Option<LockState> {
    if entry.None? then None else Some(WithoutWaiter(entry.value, session))
  }

  /** Work done on every instance in the map. */
  datatype Sweep =
    | Drop(session: SessionId)      // release what the session holds
    | Teardown(session: SessionId)  // and take it off the wait queues
    | Expire(now: int)              // the reaper

  function SweepEntry(sweep: Sweep, entry: Option<LockState>): EntryStep {
    if entry.None? then
      EntryStep(None, [])
    else
      match sweep
      case Drop(session) => ReleaseEntry(entry, session, None)
      case Teardown(session) =>
        var step := ReleaseEntry(entry, session, None);
        EntryStep(PurgeEntry(step.entry, session), step.notified)
      case Expire(now) =>
        var step := PromoteAfter(entry.value, Strip(entry.value, DueBy(now)));
        EntryStep(if step.entry.Some? then DropIfEmpty(step.entry.value) else None, step.notified)
  }

  /** Extends the lease the session or token names: the exclusive one first, then the first observer. */
  function RenewEntry(st: LockState, session: SessionId, token: Option<LockToken>, expiresAt: int)
    : (LockState, Option<LockInfo>)
  {
    var k := FirstPicked(Leases(st), Named(session, token));
    if k < |Leases(st)| then
      var info := Leases(st)[k].(expiresAt := expiresAt);
      (ReplaceLease(st, k, info), Some(info))
    else
      (st, None)
  }

  // ----- The map of all instances -----

  /**
   What the manager stores, and two append-only logs per instance: the waiters that were
   enqueued and the waiters whose one-shot channel was signalled.
   */
  datatype Manager = Manager(
    locks: map<InstanceId, LockState>,
    activeSessions: set<SessionId>,
    nextToken: LockToken,
    arrivals: map<InstanceId, seq<WaitEntry>>,
    notified: map<InstanceId, seq<WaitEntry>>)
  {
    function Entry(i: InstanceId): Option<LockState> {
      if i in locks then Some(locks[i]) else None
    }

    function State(i: InstanceId): LockState {
      OrEmpty(Entry(i))
    }
  }

  const INITIAL := Manager(map[], {}, 0, map[], map[])

  function LogOf(log: map<InstanceId, seq<WaitEntry>>, i: InstanceId): seq<WaitEntry> {
    if i in log then log[i] else []
  }

  function AppendLog(log: map<InstanceId, seq<WaitEntry>>, i: InstanceId, ws: seq<WaitEntry>)
    : map<InstanceId, seq<WaitEntry>>
  {
    if ws == [] then log else log[i := LogOf(log, i) + ws]
  }

  function SetEntry(locks: map<InstanceId, LockState>, i: InstanceId, entry: Option<LockState>)
    : map<InstanceId, LockState>
  {
    if entry.Some? then locks[i := entry.value] else locks - {i}
  }

  function AcquireIn(m: Manager, i: InstanceId, req: Request, now: int): (Manager, AcquireOutcome) {
    var (st, outcome) := Acquire(m.State(i), req, now, m.nextToken);
    (m.(locks := m.locks[i := st], nextToken := m.nextToken + if outcome.Granted? then 1 else 0), outcome)
  }

  function EnqueueIn(m: Manager, i: InstanceId, w: WaitEntry): Manager {
    var st := m.State(i);
    m.(locks := m.locks[i := st.(waitQueue := st.waitQueue + [w])],
       arrivals := AppendLog(m.arrivals, i, [w]))
  }

  function ReleaseIn(m: Manager, i: InstanceId, session: SessionId, token: Option<LockToken>)
    : (Manager, Result<bool, LockError>)
  {
    var step := ReleaseEntry(m.Entry(i), session, token);
    var held := exists o :: o in Leases(m.State(i)) && Picks(Named(session, token), o);
    (m.(locks := SetEntry(m.locks, i, step.entry), notified := AppendLog(m.notified, i, step.notified)),
     if held then Ok(step.notified != []) else Err(NotHeld(i)))
  }

  function RenewIn(m: Manager, i: InstanceId, session: SessionId, token: Option<LockToken>, ttlMillis: nat, now: int)
    : (Manager, Result<LockInfo, LockError>)
  {
    if i !in m.locks then
      (m, Err(NotHeld(i)))
    else
      var (st, info) := RenewEntry(m.locks[i], session, token, Expiry(now, ttlMillis));
      if info.Some? then (m.(locks := m.locks[i := st]), Ok(info.value)) else (m, Err(NotHeld(i)))
  }

  function RemoveFromQueueIn(m: Manager, i: InstanceId, session: SessionId): Manager {
    m.(locks := SetEntry(m.locks, i, PurgeEntry(m.Entry(i), session)))
  }

  /** A loop over the instances: all but those in `todo` have been swept. */
  ghost predicate SweptExcept(m: Manager, sweep: Sweep, m': Manager, todo: set<InstanceId>) {
    && m'.activeSessions == m.activeSessions && m'.nextToken == m.nextToken && m'.arrivals == m.arrivals
    && (forall i :: i in todo ==> m'.Entry(i) == m.Entry(i) && LogOf(m'.notified, i) == LogOf(m.notified, i))
    && (forall i :: i !in todo ==>
          var step := SweepEntry(sweep, m.Entry(i));
          m'.Entry(i) == step.entry && LogOf(m'.notified, i) == LogOf(m.notified, i) + step.notified)
  }

  /** `m'` is `m` with every instance swept. */
  ghost predicate Swept(m: Manager, sweep: Sweep, m': Manager) {
    SweptExcept(m, sweep, m', {})
  }

  function ApplyAt(m: Manager, i: InstanceId, step: EntryStep): Manager {
    m.(locks := SetEntry(m.locks, i, step.entry), notified := AppendLog(m.notified, i, step.notified))
  }

  lemma SweptOneMore(m: Manager, sweep: Sweep, m': Manager, todo: set<InstanceId>, i: InstanceId)
    requires SweptExcept(m, sweep, m', todo) && i in todo
    ensures SweptExcept(m, sweep, ApplyAt(m', i, SweepEntry(sweep, m.Entry(i))), todo - {i})
  {
    var m'' := ApplyAt(m', i, SweepEntry(sweep, m.Entry(i)));
    forall j | j != i
      ensures m''.Entry(j) == m'.Entry(j) && LogOf(m''.notified, j) == LogOf(m'.notified, j)
    {
    }
  }

  // ----- Facts about `retain` -----

  lemma {:induction false} SurvivingMembers(infos: seq<LockInfo>, rule: Rule)
    ensures forall o :: o in Surviving(infos, rule) <==> o in infos && !Picks(rule, o)
  {
    if infos != [] {
      var front := infos[..|infos| - 1];
      SurvivingMembers(front, rule);
      assert infos == front + [infos[|infos| - 1]];
    }
  }

  lemma {:induction false} SurvivingLength(infos: seq<LockInfo>, rule: Rule)
    ensures |Surviving(infos, rule)| <= |infos|
    ensures |Surviving(infos, rule)| == |infos| ==> Surviving(infos, rule) == infos
  {
    if infos != [] {
      SurvivingLength(infos[..|infos| - 1], rule);
    }
  }

  lemma {:induction false} SurvivingDistinct(infos: seq<LockInfo>, rule: Rule)
    requires DistinctSessions(infos)
    ensures DistinctSessions(Surviving(infos, rule))
  {
    if infos != [] {
      var front, last := infos[..|infos| - 1], infos[|infos| - 1];
      SurvivingDistinct(front, rule);
      SurvivingMembers(front, rule);
      var kept := Surviving(front, rule);
      forall k | 0 <= k < |kept| ensures kept[k].session != last.session {
        assert kept[k] in front;
      }
    }
  }

  lemma {:induction false} NoneDropped(infos: seq<LockInfo>, rule: Rule)
    requires forall o :: o in infos ==> !Picks(rule, o)
    ensures Surviving(infos, rule) == infos
  {
    if infos != [] {
      NoneDropped(infos[..|infos| - 1], rule);
    }
  }

  lemma StripFacts(st: LockState, rule: Rule)
    requires LeaseInv(st)
    ensures LeaseInv(Strip(st, rule))
    ensures forall o :: o in Leases(Strip(st, rule)) <==> o in Leases(st) && !Picks(rule, o)
    ensures Strip(st, rule) == st <==> forall o :: o in Leases(st) ==> !Picks(rule, o)
  {
    SurvivingMembers(st.observers, rule);
    SurvivingDistinct(st.observers, rule);
    if forall o :: o in Leases(st) ==> !Picks(rule, o) {
      NoneDropped(st.observers, rule);
      assert st.exclusive.Some? ==> st.exclusive.value in Leases(st);
    } else {
      var o :| o in Leases(st) && Picks(rule, o);
      assert o !in Leases(Strip(st, rule));
    }
  }

  lemma {:induction false} OthersInOrder(q: seq<WaitEntry>, session: SessionId)
    ensures IsSubsequence(OthersWaiting(q, session), q)
  {
    if q != [] {
      var front, last := q[..|q| - 1], q[|q| - 1];
      OthersInOrder(front, session);
      assert q == front + [last];
      SubsequenceSnoc(OthersWaiting(front, session), front, last);
    }
  }

  lemma {:induction false} OthersMembers(q: seq<WaitEntry>, session: SessionId)
    ensures forall w :: w in OthersWaiting(q, session) <==> w in q && w.session != session
  {
    if q != [] {
      var front := q[..|q| - 1];
      OthersMembers(front, session);
      assert q == front + [q[|q| - 1]];
    }
  }

  // ----- Queries -----

  predicate IsHeldBy(m: Manager, i: InstanceId, session: SessionId) {
    Holds(m.State(i), session)
  }

  function CheckAccess(m: Manager, i: InstanceId, session: SessionId, token: Option<LockToken>, required: LockType)
    : Result<(), LockError>
  {
    if i !in m.locks then
      Err(NotHeld(i))
    else
      var st := m.locks[i];
      if st.exclusive.Some? then
        var exc := st.exclusive.value;
        if Picks(Named(session, token), exc) then Ok(()) else Err(InstanceLocked(exc.session, exc.agent, exc.expiresAt))
      else if required == Observer && (exists o :: o in st.observers && Picks(Named(session, token), o)) then
        Ok(())
      else
        Err(NotHeld(i))
  }
}
