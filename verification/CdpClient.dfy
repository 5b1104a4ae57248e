/**
 Matching responses of the browser to commands: a map of pending commands by id, one-shot channels,
 timeouts that fire and clean up in two steps, and connection losses that drop everything pending.
 */
module CdpClient {
  import opened Common

  /** The rest of a message; nothing is known about it. */
  type Payload(==, !new, 0)

  /** Code and text of an error that the browser reports. */
  type Fault(==, !new, 0)

  /** A message of the browser; one with an id is a response. */
  datatype Message = Message(id: Option<nat>, error: Option<Fault>, payload: Payload)

  datatype Outcome = Response(message: Message) | Protocol(error: Fault) | SendFailed | ConnectionLost | Timeout

  /** What is in the one-shot channel of a command; it closes when its sender is dropped unused. */
  datatype Slot = Empty | Holds(message: Message) | Closed

  /** Where the caller is: sending, waiting, past a send error or the timer but not yet cleaned up, returned. */
  datatype Phase = Sending | Waiting | SendRefused | TimerFired | Done(outcome: Outcome)

  datatype Command = Command(slot: Slot, phase: Phase)

  /** Commands ever issued by id, those in the pending map, and the id generator. */
  datatype State = State(nextId: nat, pending: set<nat>, commands: map<nat, Command>)

  const INIT: State := State(1, {}, map[])

  // ----- Steps -----

  datatype Event =
    | Issue                       // register a command under a fresh id
    | SendAccepted(id: nat)       // the request is handed to the writer
    | SendError(id: nat)          // or the writer is gone
    | CleanUpSend(id: nat)        // the error path removes the entry and returns
    | Arrive(message: Message)    // the read loop handles a message
    | Disconnect                  // the read loop ends and clears the map
    | TimeUp(id: nat)             // the timer fires while nothing is in the channel
    | CleanUpTimer(id: nat)       // the timeout path removes the entry and returns
    | Wake(id: nat)               // the caller takes what is in the channel and returns

  predicate PhaseIs(s: State, id: nat, phase: Phase) {
    id in s.commands && s.commands[id].phase == phase
  }

  predicate Enabled(s: State, e: Event) {
    match e
    case Issue => true
    case SendAccepted(id) => PhaseIs(s, id, Sending)
    case SendError(id) => PhaseIs(s, id, Sending)
    case CleanUpSend(id) => PhaseIs(s, id, SendRefused)
    case Arrive(_) => true
    case Disconnect => true
    case TimeUp(id) => PhaseIs(s, id, Waiting) && s.commands[id].slot == Empty
    case CleanUpTimer(id) => PhaseIs(s, id, TimerFired)
    case Wake(id) => PhaseIs(s, id, Waiting) && s.commands[id].slot != Empty
  }

  function SetPhase(s: State, id: nat, phase: Phase): State
    requires id in s.commands
  {
    s.(commands := s.commands[id := s.commands[id].(phase := phase)])
  }

  /** The entry is taken out of the map; the sender in it, if still there, is dropped. */
  function Return(s: State, id: nat, outcome: Outcome): State
    requires id in s.commands
  {
    SetPhase(s.(pending := s.pending - {id}), id, Done(outcome))
  }

  /** A response goes to the command pending under its id, everything else is ignored. */
  function Deliver(s: State, m: Message): State {
    if m.id.Some? && m.id.value in s.pending && m.id.value in s.commands then
      var id := m.id.value;
      State(s.nextId, s.pending - {id}, s.commands[id := s.commands[id].(slot := Holds(m))])
    else
      s
  }

  /** Clearing the map drops the senders in it. */
  function DropPending(s: State): State {
    State(s.nextId, {}, map id | id in s.commands ::
      if id in s.pending then s.commands[id].(slot := Closed) else s.commands[id])
  }

  /** What the caller makes of what is in the channel. */
  function Answer(slot: Slot): Outcome {
    if !slot.Holds? then ConnectionLost
    else if slot.message.error.Some? then Protocol(slot.message.error.value)
    else Response(slot.message)
  }

  function Apply(s: State, e: Event): State
    requires Enabled(s, e)
  {
    match e
    case Issue =>
      State(s.nextId + 1, s.pending + {s.nextId}, s.commands[s.nextId := Command(Empty, Sending)])
    case SendAccepted(id) => SetPhase(s, id, Waiting)
    case SendError(id) => SetPhase(s, id, SendRefused)
    case CleanUpSend(id) => Return(s, id, SendFailed)
    case Arrive(m) => Deliver(s, m)
    case Disconnect => DropPending(s)
    case TimeUp(id) => SetPhase(s, id, TimerFired)
    case CleanUpTimer(id) => Return(s, id, Timeout)
    case Wake(id) => SetPhase(s, id, Done(Answer(s.commands[id].slot)))
  }

  // ----- The client -----

  class CdpClient {
    var nextId: nat
    var pending: set<nat>
    var commands: map<nat, Command>

    constructor ()
      ensures View() == INIT
    {
      nextId, pending, commands := 1, {}, map[];
    }

    function View(): State
      reads this
    {
      State(nextId, pending, commands)
    }

    /** The request and its entry in the map; ids are never used twice. */
    method Register() returns (id: nat)
      modifies this
      ensures id == old(nextId) && View() == Apply(old(View()), Issue)
    {
      id := nextId;
      nextId := nextId + 1;
      commands := commands[id := Command(Empty, Sending)];
      pending := pending + {id};
    }

    method SendRequest(id: nat, ok: bool)
      requires Enabled(View(), if ok then SendAccepted(id) else SendError(id))
      modifies this
      ensures View() == Apply(old(View()), if ok then SendAccepted(id) else SendError(id))
    {
      commands := commands[id := commands[id].(phase := if ok then Waiting else SendRefused)];
    }

    /** The error path behind a refused send, or behind the timer. */
    method CleanUp(id: nat) returns (outcome: Outcome)
      requires Enabled(View(), CleanUpSend(id)) || Enabled(View(), CleanUpTimer(id))
      modifies this
      ensures Enabled(old(View()), CleanUpSend(id)) ==> View() == Apply(old(View()), CleanUpSend(id))
      ensures Enabled(old(View()), CleanUpTimer(id)) ==> View() == Apply(old(View()), CleanUpTimer(id))
      ensures PhaseIs(View(), id, Done(outcome))
      ensures outcome == if PhaseIs(old(View()), id, SendRefused) then SendFailed else Timeout
    {
      outcome := if commands[id].phase == SendRefused then SendFailed else Timeout;
      pending := pending - {id};
      commands := commands[id := commands[id].(phase := Done(outcome))];
    }

    /** `handle_message`, as far as responses go. */
    method HandleMessage(m: Message)
      requires Inv(View())
      modifies this
      ensures View() == Apply(old(View()), Arrive(m))
    {
      if m.id.Some? {
        var id := m.id.value;
        if id in pending {
          pending := pending - {id};
          commands := commands[id := commands[id].(slot := Holds(m))];
        }
      }
    }

    /** `pending_requests.clear()`: every sender in the map is dropped. */
    method ClearPending()
      requires Inv(View())
      modifies this
      ensures View() == Apply(old(View()), Disconnect)
    {
      ghost var before := View();
      while pending != {}
        invariant nextId == before.nextId && pending <= before.pending <= commands.Keys == before.commands.Keys
        invariant forall id :: id in commands ==>
          (commands[id] == if id in before.pending - pending then before.commands[id].(slot := Closed)
                           else before.commands[id])
        decreases |pending|
      {
        var id :| id in pending;
        pending := pending - {id};
        commands := commands[id := commands[id].(slot := Closed)];
      }
      assert commands == Apply(before, Disconnect).commands;
    }

    method FireTimer(id: nat)
      requires Enabled(View(), TimeUp(id))
      modifies this
      ensures View() == Apply(old(View()), TimeUp(id))
    {
      commands := commands[id := commands[id].(phase := TimerFired)];
    }

    /** The caller wakes up: with the response, or because the sender was dropped. */
    method TakeResponse(id: nat) returns (outcome: Outcome)
      requires Enabled(View(), Wake(id))
      modifies this
      ensures View() == Apply(old(View()), Wake(id)) && PhaseIs(View(), id, Done(outcome))
      ensures match old(commands)[id].slot
              case Holds(m) => outcome == if m.error.Some? then Protocol(m.error.value) else Response(m)
              case _ => outcome == ConnectionLost
    {
      match commands[id].slot {
        case Holds(m) =>
          outcome := if m.error.Some? then Protocol(m.error.value) else Response(m);
        case _ =>
          outcome := ConnectionLost;
      }
      commands := commands[id := commands[id].(phase := Done(outcome))];
    }
  }

  // ----- Runs -----

  predicate IsRun(s: State, events: seq<Event>)
    decreases |events|
  {
    events == [] || (Enabled(s, events[0]) && IsRun(Apply(s, events[0]), events[1..]))
  }

  function After(s: State, events: seq<Event>): State
    requires IsRun(s, events)
    decreases |events|
  {
    if events == [] then s else After(Apply(s, events[0]), events[1..])
  }

  /** What holds of one command. */
  predicate CommandOk(s: State, id: nat)
    requires id in s.commands
  {
    var c := s.commands[id];
    && id < s.nextId
    && (id in s.pending <==> c.slot == Empty && !c.phase.Done?)
    && (c.slot.Holds? ==> c.slot.message.id == Some(id))
    && (c.phase.Done? && c.phase.outcome.Response? ==> c.slot == Holds(c.phase.outcome.message))
    && (c.phase.Done? && c.phase.outcome.Protocol? ==> c.slot.Holds?)
    && (c.phase == Done(ConnectionLost) ==> c.slot == Closed)
  }

  /** The pending map holds exactly the commands that still can get a response. */
  ghost predicate Inv(s: State) {
    && s.pending <= s.commands.Keys
    && forall id :: id in s.commands ==> CommandOk(s, id)
  }

  lemma StepKeeps(s: State, e: Event)
    requires Inv(s) && Enabled(s, e)
    ensures Inv(Apply(s, e))
  {
  }

  lemma {:induction false} RunKeeps(s: State, events: seq<Event>)
    requires Inv(s) && IsRun(s, events)
    ensures Inv(After(s, events))
    decreases |events|
  {
    hide Inv, Apply, Enabled;
    if events != [] {
      StepKeeps(s, events[0]);
      RunKeeps(Apply(s, events[0]), events[1..]);
    }
  }

  /** In every reachable state, a command that got a response got one with its own id. */
  lemma ResponseHasOwnId(events: seq<Event>, id: nat, m: Message)
    requires IsRun(INIT, events) && PhaseIs(After(INIT, events), id, Done(Response(m)))
    ensures m.id == Some(id)
  {
    RunKeeps(INIT, events);
    assert CommandOk(After(INIT, events), id);
  }

  /** Two commands never get the same response. */
  lemma ResponsesAreNotShared(events: seq<Event>, a: nat, b: nat, m: Message)
    requires IsRun(INIT, events)
    requires PhaseIs(After(INIT, events), a, Done(Response(m))) && PhaseIs(After(INIT, events), b, Done(Response(m)))
    ensures a == b
  {
    ResponseHasOwnId(events, a, m);
    ResponseHasOwnId(events, b, m);
  }

  /** A command that has returned leaves no entry behind. */
  lemma ReturnedIsNotPending(events: seq<Event>, id: nat)
    requires IsRun(INIT, events)
    requires var s := After(INIT, events); id in s.commands && s.commands[id].phase.Done?
    ensures id !in After(INIT, events).pending
  {
    RunKeeps(INIT, events);
    assert CommandOk(After(INIT, events), id);
  }

  /** What can never be undone about a command: its outcome, its closed channel, its message. */
  predicate Settled(before: Command, after: Command) {
    && (before.phase.Done? ==> after.phase == before.phase)
    && (before.slot != Empty ==> after.slot == before.slot)
    && (before.slot == Empty && before.phase.Done? ==> after.slot == Empty)
  }

  lemma StepSettles(s: State, e: Event, id: nat)
    requires Inv(s) && Enabled(s, e) && id in s.commands
    ensures id in Apply(s, e).commands && Settled(s.commands[id], Apply(s, e).commands[id])
  {
  }

  /** Each command completes at most once: its outcome stands for the rest of the run. */
  lemma {:induction false} OutcomeStands(s: State, events: seq<Event>, id: nat)
    requires Inv(s) && IsRun(s, events) && id in s.commands
    ensures id in After(s, events).commands && Settled(s.commands[id], After(s, events).commands[id])
    decreases |events|
  {
    hide Inv, Apply, Enabled;
    if events != [] {
      StepKeeps(s, events[0]);
      StepSettles(s, events[0], id);
      OutcomeStands(Apply(s, events[0]), events[1..], id);
    }
  }

  /** A command pending when the connection is lost never gets a response, whatever arrives later. */
  lemma NoResponseAfterDisconnect(before: seq<Event>, events: seq<Event>, id: nat)
    requires IsRun(INIT, before) && id in After(INIT, before).pending
    requires IsRun(Apply(After(INIT, before), Disconnect), events)
    ensures var s := After(Apply(After(INIT, before), Disconnect), events);
            id in s.commands && s.commands[id].slot == Closed
            && !(s.commands[id].phase.Done? && s.commands[id].phase.outcome.Response?)
            && !(s.commands[id].phase.Done? && s.commands[id].phase.outcome.Protocol?)
  {
    hide IsRun, After;
    RunKeeps(INIT, before);
    var s := After(INIT, before);
    var s1 := Apply(s, Disconnect);
    StepKeeps(s, Disconnect);
    RunKeeps(s1, events);
    OutcomeStands(s1, events, id);
    assert s1.commands[id].slot == Closed;
    assert CommandOk(After(s1, events), id);
  }

  /** A response that comes after the command returned, or under an id never issued, changes nothing. */
  lemma LateResponseIgnored(s: State, m: Message)
    requires Inv(s) && m.id.Some?
    requires m.id.value in s.commands ==> s.commands[m.id.value].phase.Done? || s.commands[m.id.value].slot != Empty
    ensures Apply(s, Arrive(m)) == s
  {
  }
}
