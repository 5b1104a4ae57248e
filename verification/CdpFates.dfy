/** How every command ends, told from the events since it was issued. */
module CdpFates {
  import opened Common
  import opened CdpClient

  /** The event decides what the channel of command `id` will ever hold. */
  predicate Settles(e: Event, id: nat) {
    match e
    case Arrive(m) => m.id == Some(id)
    case Disconnect => true
    case CleanUpSend(c) => c == id
    case CleanUpTimer(c) => c == id
    case _ => false
  }

  /** The first event that does. */
  function Settler(past: seq<Event>, id: nat): Option<Event> {
    if past == [] then None
    else
      var before := Settler(past[..|past| - 1], id);
      if before.None? && Settles(past[|past| - 1], id) then Some(past[|past| - 1]) else before
  }

  lemma {:induction false} SettlerIsFirst(past: seq<Event>, id: nat)
    ensures Settler(past, id).None? <==> forall k :: 0 <= k < |past| ==> !Settles(past[k], id)
    ensures forall f :: 0 <= f < |past| && Settles(past[f], id) && (forall k :: 0 <= k < f ==> !Settles(past[k], id))
              ==> Settler(past, id) == Some(past[f])
    ensures Settler(past, id).Some? ==> Settler(past, id).value in past && Settles(Settler(past, id).value, id)
  {
    if past != [] {
      SettlerIsFirst(past[..|past| - 1], id);
    }
  }

  /** What the channel holds: the first message with the id, unless the connection or the caller was gone before. */
  predicate SlotTold(settler: Option<Event>, slot: Slot) {
    match settler
    case Some(Arrive(m)) => slot == Holds(m)
    case Some(Disconnect) => slot == Closed
    case _ => slot == Empty
  }

  /** The answer of a caller that waited until its channel was decided. */
  predicate AnsweredBy(settler: Option<Event>, outcome: Outcome) {
    match settler
    case Some(Arrive(m)) => outcome == if m.error.Some? then Protocol(m.error.value) else Response(m)
    case Some(Disconnect) => outcome == ConnectionLost
    case _ => false
  }

  /** Where the caller is. */
  predicate PhaseTold(past: seq<Event>, id: nat, phase: Phase) {
    match phase
    case Sending => SendAccepted(id) !in past && NotDone(past, id) && NoError(past, id)
    case SendRefused => SendError(id) in past && SendAccepted(id) !in past && NotDone(past, id) && TimeUp(id) !in past
    case Waiting => SendAccepted(id) in past && NotDone(past, id) && NoError(past, id)
    case TimerFired => TimeUp(id) in past && NotDone(past, id) && SendError(id) !in past
    case Done(outcome) =>
      if SendError(id) in past then CleanUpSend(id) in past && outcome == SendFailed && TimeUp(id) !in past
      else if TimeUp(id) in past then CleanUpTimer(id) in past && outcome == Timeout
      else Wake(id) in past && AnsweredBy(Settler(past, id), outcome)
  }

  predicate NotDone(past: seq<Event>, id: nat) {
    Wake(id) !in past && CleanUpSend(id) !in past && CleanUpTimer(id) !in past
  }

  predicate NoError(past: seq<Event>, id: nat) {
    SendError(id) !in past && TimeUp(id) !in past
  }

  /** The state of command `id` agrees with the events since it was issued. */
  predicate Told(s: State, past: seq<Event>, id: nat) {
    && id in s.commands
    && SlotTold(Settler(past, id), s.commands[id].slot) && PhaseTold(past, id, s.commands[id].phase)
  }

  lemma SettlerSnoc(past: seq<Event>, e: Event, id: nat)
    ensures Settler(past + [e], id)
            == if Settler(past, id).None? && Settles(e, id) then Some(e) else Settler(past, id)
    ensures CleanUpSend(id) in past || CleanUpTimer(id) in past ==> Settler(past, id).Some?
  {
    assert (past + [e])[..|past|] == past;
    SettlerIsFirst(past, id);
  }

  lemma SlotStep(s: State, past: seq<Event>, e: Event, id: nat)
    requires Inv(s) && Told(s, past, id) && Enabled(s, e)
    ensures id in Apply(s, e).commands && SlotTold(Settler(past + [e], id), Apply(s, e).commands[id].slot)
  {
    hide Settler;
    SettlerSnoc(past, e, id);
    DoneIsSettled(s, past, id);
  }

  lemma DoneIsSettled(s: State, past: seq<Event>, id: nat)
    requires Inv(s) && Told(s, past, id)
    ensures CommandOk(s, id) && id < s.nextId
    ensures s.commands[id].phase.Done? || s.commands[id].slot != Empty <==> Settler(past, id).Some?
  {
    hide Settler;
    assert CommandOk(s, id);
    SettlerSnoc(past, Issue, id);
    SettlerIsFirst(past, id);
  }

  lemma PhaseStep(s: State, past: seq<Event>, e: Event, id: nat)
    requires Inv(s) && Told(s, past, id) && Enabled(s, e)
    ensures id in Apply(s, e).commands && PhaseTold(past + [e], id, Apply(s, e).commands[id].phase)
  {
    hide Settler, Inv, SlotTold, CommandOk, AnsweredBy, Answer;
    SettlerSnoc(past, e, id);
    DoneIsSettled(s, past, id);
    assert forall d :: d in past + [e] <==> d in past || d == e;
    if e == Wake(id) {
      AnswerTold(Settler(past, id), s.commands[id].slot);
    }
  }

  lemma AnswerTold(settler: Option<Event>, slot: Slot)
    requires SlotTold(settler, slot) && slot != Empty
    ensures AnsweredBy(settler, Answer(slot))
  {
  }

  /** Every event keeps that, so every run does. */
  lemma {:induction false} ToldRun(s: State, past: seq<Event>, events: seq<Event>, id: nat)
    requires Inv(s) && Told(s, past, id) && IsRun(s, events)
    ensures Told(After(s, events), past + events, id)
    decreases |events|
  {
    hide Inv, Apply, Enabled, SlotTold, PhaseTold, Settler;
    if events == [] {
      assert past + events == past;
    } else {
      StepKeeps(s, events[0]);
      SlotStep(s, past, events[0], id);
      PhaseStep(s, past, events[0], id);
      ToldRun(Apply(s, events[0]), past + [events[0]], events[1..], id);
      assert past + [events[0]] + events[1..] == past + events;
    }
  }

  // ----- What becomes of a command -----

  lemma NothingTold(id: nat)
    ensures Settler([], id) == None
  {
  }

  /**
   From the events after command `id` was issued alone: it returns at exactly one of three points; it
   says Timeout exactly when the timer fired, SendFailed exactly when the send was refused, and else
   what decided its channel: the first message with its id, or the end of the connection.
   */
  lemma CommandFate(before: seq<Event>, events: seq<Event>, id: nat, f: nat)
    requires IsRun(INIT, before) && id == After(INIT, before).nextId
    requires IsRun(Apply(After(INIT, before), Issue), events)
    requires f <= |events| && forall k :: 0 <= k < f ==> !Settles(events[k], id)
    requires f < |events| ==> Settles(events[f], id)
    ensures var s := After(Apply(After(INIT, before), Issue), events);
            && id in s.commands
            && var c := s.commands[id];
               && (c.phase.Done? <==>
                     Wake(id) in events || CleanUpSend(id) in events || CleanUpTimer(id) in events)
               && (c.phase.Done? ==>
                     && (c.phase.outcome == Timeout <==> TimeUp(id) in events)
                     && (c.phase.outcome == SendFailed <==> SendError(id) in events)
                     && (TimeUp(id) !in events && SendError(id) !in events ==>
                           && f < |events|
                           && match events[f]
                              case Arrive(m) =>
                                c.phase.outcome == if m.error.Some? then Protocol(m.error.value) else Response(m)
                              case Disconnect => c.phase.outcome == ConnectionLost
                              case _ => false))
               && c.slot == if f == |events| then Empty
                            else match events[f]
                                 case Arrive(m) => Holds(m)
                                 case Disconnect => Closed
                                 case _ => Empty
  {
    hide IsRun, After, Settler, Settles;
    var s := After(INIT, before);
    RunKeeps(INIT, before);
    StepKeeps(s, Issue);
    NothingTold(id);
    ToldRun(Apply(s, Issue), [], events, id);
    assert [] + events == events;
    SettlerIsFirst(events, id);
  }

  /** A channel that is decided keeps the timer from firing. */
  lemma {:induction false} NoTimerOnceDecided(s: State, events: seq<Event>, id: nat)
    requires Inv(s) && IsRun(s, events) && id in s.commands && s.commands[id].slot != Empty
    ensures TimeUp(id) !in events
    decreases |events|
  {
    hide Inv, Apply;
    if events != [] {
      StepKeeps(s, events[0]);
      StepSettles(s, events[0], id);
      NoTimerOnceDecided(Apply(s, events[0]), events[1..], id);
    }
  }

  /**
   Delivery.  A message with the id of a command that is being sent or waits, the first one since the command
   was issued, is in its channel from then on, whatever happens; the timer never fires; and unless the
   send is refused, the caller returns with that very message, or with the error it reports.
   */
  lemma ResponseReachesCaller(before: seq<Event>, events: seq<Event>, id: nat, m: Message, later: seq<Event>)
    requires IsRun(INIT, before) && id == After(INIT, before).nextId
    requires IsRun(Apply(After(INIT, before), Issue), events + [Arrive(m)] + later)
    requires m.id == Some(id) && TimeUp(id) !in events
    requires forall k :: 0 <= k < |events| ==> !Settles(events[k], id)
    ensures var s := After(Apply(After(INIT, before), Issue), events + [Arrive(m)] + later);
            && id in s.commands && s.commands[id].slot == Holds(m)
            && TimeUp(id) !in events + [Arrive(m)] + later
            && (s.commands[id].phase.Done? && SendError(id) !in events + [Arrive(m)] + later ==>
                  s.commands[id].phase == Done(if m.error.Some? then Protocol(m.error.value) else Response(m)))
  {
    hide IsRun, After, Apply;
    var all := events + [Arrive(m)] + later;
    var s0 := Apply(After(INIT, before), Issue);
    assert all[|events|] == Arrive(m) && forall k :: 0 <= k < |events| ==> all[k] == events[k];
    CommandFate(before, all, id, |events|);
    RunSplit(s0, events + [Arrive(m)], later);
    var s1 := After(s0, events + [Arrive(m)]);
    CommandFate(before, events + [Arrive(m)], id, |events|);
    RunKeeps(INIT, before);
    StepKeeps(After(INIT, before), Issue);
    RunKeeps(s0, events + [Arrive(m)]);
    NoTimerOnceDecided(s1, later, id);
  }

  lemma {:induction false} RunSplit(s: State, a: seq<Event>, b: seq<Event>)
    requires IsRun(s, a + b)
    ensures IsRun(s, a) && IsRun(After(s, a), b)
    decreases |a|
  {
    hide Apply, Enabled;
    if a == [] {
      assert a + b == b;
    } else {
      assert (a + b)[0] == a[0] && (a + b)[1..] == a[1..] + b;
      RunSplit(Apply(s, a[0]), a[1..], b);
    }
  }

  /** Such a run: the first command is answered. */
  lemma ResponseWitness(m: Message)
    requires m.id == Some(1)
    ensures var events := [Issue] + ([SendAccepted(1)] + ([Arrive(m)] + ([Wake(1)] + [])));
            && IsRun(INIT, events)
            && PhaseIs(After(INIT, events), 1, Done(if m.error.Some? then Protocol(m.error.value) else Response(m)))
  {
    hide IsRun, After;
    var s1 := Apply(INIT, Issue);
    var s2 := Apply(s1, SendAccepted(1));
    var s3 := Apply(s2, Arrive(m));
    var s4 := Apply(s3, Wake(1));
    RunNil(s4);
    RunCons(s3, Wake(1), []);
    RunCons(s2, Arrive(m), [Wake(1)] + []);
    RunCons(s1, SendAccepted(1), [Arrive(m)] + ([Wake(1)] + []));
    RunCons(INIT, Issue, [SendAccepted(1)] + ([Arrive(m)] + ([Wake(1)] + [])));
  }

  lemma RunNil(s: State)
    ensures IsRun(s, []) && After(s, []) == s
  {
  }

  lemma RunCons(s: State, e: Event, rest: seq<Event>)
    requires Enabled(s, e) && IsRun(Apply(s, e), rest)
    ensures IsRun(s, [e] + rest) && After(s, [e] + rest) == After(Apply(s, e), rest)
  {
    hide Apply, Enabled;
    assert ([e] + rest)[1..] == rest;
  }
}
