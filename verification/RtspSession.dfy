/**
 RTSP sessions: SETUP adds tracks, PLAY spawns a sender task for each, PAUSE and TEARDOWN cancel
 them.  A task runs until it is aborted, its cancellation token is cancelled, or it ends by itself
 (a send fails, a stream cannot be made, the source closes); the promise is that
 no task outlives the playing session that holds it.
 */
module RtspSession {
  import opened Common
  import opened TransportHeader

  type InstanceId(==, !new, 0)

  datatype MediaType = Video | Audio

  datatype MediaConfig = MediaConfig(video: bool, audio: bool)

  datatype SessionState = Ready | Playing | Paused

  datatype Track = Track(trackId: nat, mediaType: MediaType, mode: TransportMode, serverRtp: nat, serverRtcp: nat,
                         task: Option<nat>)

  datatype Session = Session(instance: InstanceId, state: SessionState, tracks: seq<Track>, lastActivity: nat,
                             cancel: nat)

  /** A sender task, with what it captured when it was spawned. */
  datatype Task = Task(session: nat, trackId: nat, token: nat)

  /**
   The sessions, and the run-time system: id generators, cancelled tokens, tasks, those aborted, those
   ended, and whether the token of the manager is cancelled, of which every session token is a child.
   */
  datatype World = World(sessions: map<nat, Session>, nextSession: nat, nextToken: nat, nextTask: nat,
                         cancelled: set<nat>, tasks: map<nat, Task>, aborted: set<nat>, ended: set<nat>,
                         shutDown: bool)

  const EMPTY: World := World(map[], 0, 0, 0, {}, map[], {}, {}, false)

  /** What a SETUP request comes to once its URL and headers are read and its ports allocated. */
  datatype SetupRequest = SetupRequest(instance: Option<InstanceId>, known: bool, transport: Option<TransportMode>,
                                       ports: Option<(nat, nat)>, trackId: Option<nat>, media: MediaConfig,
                                       session: Option<nat>, now: nat)

  /** Whether the instance has audio and video to subscribe to. */
  datatype Sources = Sources(audio: bool, video: bool)

  const OK: nat := 200
  const NOT_FOUND: nat := 404
  const SESSION_NOT_FOUND: nat := 454
  const NOT_VALID_IN_STATE: nat := 455
  const UNSUPPORTED_TRANSPORT: nat := 461
  const INTERNAL_ERROR: nat := 500

  // ----- SETUP -----

  /** The track meant by a request: 0 is video, 1 audio; without a number the media asked for decide. */
  function ResolveTrack(trackId: Option<nat>, media: MediaConfig): Option<(nat, MediaType)> {
    match trackId
    case Some(id) => if id == 0 then Some((0, Video)) else if id == 1 then Some((1, Audio)) else None
    case None => if media.video && !media.audio then Some((0, Video)) else Some((1, Audio))
  }

  predicate HasTrack(tracks: seq<Track>, trackId: nat) {
    exists k :: 0 <= k < |tracks| && tracks[k].trackId == trackId
  }

  function NewTrack(req: SetupRequest, track: (nat, MediaType), mode: TransportMode): Track {
    if mode.TcpInterleaved? || req.ports.None? then Track(track.0, track.1, mode, 0, 0, None)
    else Track(track.0, track.1, mode, req.ports.value.0, req.ports.value.1, None)
  }

  function AddTrack(s: Session, t: Track, now: nat): Session {
    s.(tracks := s.tracks + [t], lastActivity := now)
  }

  /** Everything before the session is looked at; the answer is an error or the track to add. */
  function CheckSetup(req: SetupRequest): Result<Track, nat> {
    if req.instance.None? || !req.known then Err(NOT_FOUND)
    else if req.transport.None? then Err(UNSUPPORTED_TRANSPORT)
    else if req.transport.value.UdpUnicast? && req.ports.None? then Err(INTERNAL_ERROR)
    else
      var track := ResolveTrack(req.trackId, req.media);
      if track.None? then Err(NOT_FOUND) else Ok(NewTrack(req, track.value, req.transport.value))
  }

  function Setup(w: World, req: SetupRequest): (World, nat) {
    var checked := CheckSetup(req);
    if checked.Err? then (w, checked.error)
    else if req.session.Some? then
      var id := req.session.value;
      if id !in w.sessions || Some(w.sessions[id].instance) != req.instance then (w, SESSION_NOT_FOUND)
      else if HasTrack(w.sessions[id].tracks, checked.value.trackId) then (w, NOT_VALID_IN_STATE)
      else (w.(sessions := w.sessions[id := AddTrack(w.sessions[id], checked.value, req.now)]), OK)
    else if req.instance.None? then (w, NOT_FOUND)
    else
      var s := Session(req.instance.value, Ready, [], req.now, w.nextToken);
      (w.(sessions := w.sessions[w.nextSession := AddTrack(s, checked.value, req.now)],
          nextSession := w.nextSession + 1, nextToken := w.nextToken + 1), OK)
  }

  // ----- PLAY -----

  predicate Starts(t: Track, sources: Sources) {
    t.task.None? && if t.mediaType.Audio? then sources.audio else sources.video
  }

  /** The tracks with tasks for those that had none; new tasks are numbered from `next` on. */
  function Started(tracks: seq<Track>, sources: Sources, next: nat): (r: seq<Track>)
    ensures |r| == |tracks|
  {
    if tracks == [] then []
    else if Starts(tracks[0], sources) then
      [tracks[0].(task := Some(next))] + Started(tracks[1..], sources, next + 1)
    else
      [tracks[0]] + Started(tracks[1..], sources, next)
  }

  function NewTasks(tracks: seq<Track>, sources: Sources, next: nat, id: nat, token: nat): map<nat, Task> {
    if tracks == [] then map[]
    else if Starts(tracks[0], sources) then
      NewTasks(tracks[1..], sources, next + 1, id, token)[next := Task(id, tracks[0].trackId, token)]
    else
      NewTasks(tracks[1..], sources, next, id, token)
  }

  function NextTask(tracks: seq<Track>, sources: Sources, next: nat): (r: nat)
    ensures r >= next
  {
    if tracks == [] then next
    else NextTask(tracks[1..], sources, if Starts(tracks[0], sources) then next + 1 else next)
  }

  function PlaySession(s: Session, now: nat): Session {
    if s.state.Playing? then s else s.(state := Playing, lastActivity := now)
  }

  function Play(w: World, session: Option<nat>, sources: Sources, now: nat): (World, nat) {
    if session.None? || session.value !in w.sessions then (w, SESSION_NOT_FOUND)
    else
      var id := session.value;
      var s := PlaySession(w.sessions[id], now);
      (w.(sessions := w.sessions[id := s.(tracks := Started(s.tracks, sources, w.nextTask))],
          tasks := w.tasks + NewTasks(s.tracks, sources, w.nextTask, id, s.cancel),
          nextTask := NextTask(s.tracks, sources, w.nextTask)), OK)
  }

  // ----- PAUSE, TEARDOWN, reaping -----

  function Stopped(tracks: seq<Track>): (r: seq<Track>)
    ensures |r| == |tracks|
    ensures forall k :: 0 <= k < |r| ==> r[k] == tracks[k].(task := None)
  {
    seq(|tracks|, k requires 0 <= k < |tracks| => tracks[k].(task := None))
  }

  /** Tasks whose handles a list of tracks holds. */
  function Handles(tracks: seq<Track>): set<nat> {
    set k | 0 <= k < |tracks| && tracks[k].task.Some? :: tracks[k].task.value
  }

  function Pause(w: World, session: Option<nat>, now: nat): (World, nat) {
    if session.None? || session.value !in w.sessions then (w, SESSION_NOT_FOUND)
    else
      var id := session.value;
      var s := w.sessions[id];
      if s.state.Ready? then (w, NOT_VALID_IN_STATE)
      else
        var active := if s.state.Playing? then now else s.lastActivity;
        (w.(sessions := w.sessions[id := Session(s.instance, Paused, Stopped(s.tracks), active, w.nextToken)],
            nextToken := w.nextToken + 1, cancelled := w.cancelled + {s.cancel},
            aborted := w.aborted + Handles(s.tracks)), OK)
  }

  /** The sessions in `ids` are removed and torn down. */
  function Without(w: World, ids: set<nat>): World {
    w.(sessions := w.sessions - ids,
       cancelled := w.cancelled + set id | id in w.sessions && id in ids :: w.sessions[id].cancel,
       aborted := w.aborted + set id, t | id in w.sessions && id in ids && t in Handles(w.sessions[id].tracks) :: t)
  }

  function Teardown(w: World, session: Option<nat>): (World, nat) {
    if session.None? || session.value !in w.sessions then (w, SESSION_NOT_FOUND)
    else (Without(w, {session.value}), OK)
  }

  predicate Expired(s: Session, timeout: nat, now: nat) {
    now > s.lastActivity + timeout
  }

  function ExpiredIds(w: World, timeout: nat, now: nat): set<nat> {
    set id | id in w.sessions && Expired(w.sessions[id], timeout, now)
  }

  function Touch(w: World, id: nat, now: nat): World {
    if id in w.sessions then w.(sessions := w.sessions[id := w.sessions[id].(lastActivity := now)]) else w
  }

  /** A task returns by itself; nobody takes its handle out of the track. */
  function EndTask(w: World, t: nat): World {
    if t in w.tasks then w.(ended := w.ended + {t}) else w
  }

  /** The token of the manager is cancelled, and with it every token made from it, then or later. */
  function CancelRoot(w: World): World {
    w.(shutDown := true)
  }

  // ----- The manager and its handlers -----

  class RtspSessionManager {
    const timeout: nat
    var sessions: map<nat, Session>
    var nextSession: nat
    var nextToken: nat
    var nextTask: nat
    var cancelled: set<nat>
    var tasks: map<nat, Task>
    var aborted: set<nat>
    var ended: set<nat>
    var shutDown: bool

    constructor (timeout: nat)
      ensures View() == EMPTY && this.timeout == timeout
    {
      this.timeout := timeout;
      sessions := map[];
      nextSession, nextToken, nextTask := 0, 0, 0;
      cancelled, tasks, aborted, ended, shutDown := {}, map[], {}, {}, false;
    }

    function View(): World
      reads this
    {
      World(sessions, nextSession, nextToken, nextTask, cancelled, tasks, aborted, ended, shutDown)
    }

    method CreateSession(instance: InstanceId, now: nat) returns (id: nat)
      modifies this
      ensures id == old(nextSession)
      ensures View() == old(View()).(sessions := old(sessions)[id := Session(instance, Ready, [], now, old(nextToken))],
                                     nextSession := id + 1, nextToken := old(nextToken) + 1)
    {
      id := nextSession;
      nextSession := nextSession + 1;
      sessions := sessions[id := Session(instance, Ready, [], now, nextToken)];
      nextToken := nextToken + 1;
    }

    method HandleSetup(req: SetupRequest) returns (status: nat)
      modifies this
      ensures (View(), status) == Setup(old(View()), req)
    {
      if req.instance.None? || !req.known {
        return NOT_FOUND;
      }
      if req.transport.None? {
        return UNSUPPORTED_TRANSPORT;
      }
      if req.transport.value.UdpUnicast? && req.ports.None? {
        return INTERNAL_ERROR;
      }
      var resolved := ResolveTrack(req.trackId, req.media);
      if resolved.None? {
        return NOT_FOUND;
      }
      var track := NewTrack(req, resolved.value, req.transport.value);
      if req.session.Some? {
        var id := req.session.value;
        if id !in sessions || sessions[id].instance != req.instance.value {
          return SESSION_NOT_FOUND;
        }
        if HasTrack(sessions[id].tracks, resolved.value.0) {
          return NOT_VALID_IN_STATE;
        }
        sessions := sessions[id := AddTrack(sessions[id], track, req.now)];
      } else {
        var id := CreateSession(req.instance.value, req.now);
        sessions := sessions[id := AddTrack(sessions[id], track, req.now)];
        assert sessions == old(sessions)[id := sessions[id]];
      }
      return OK;
    }

    method HandlePlay(session: Option<nat>, sources: Sources, now: nat) returns (status: nat)
      modifies this
      ensures (View(), status) == Play(old(View()), session, sources, now)
    {
      hide Started, NewTasks, NextTask;
      if session.None? || session.value !in sessions {
        return SESSION_NOT_FOUND;
      }
      var id := session.value;
      var s := PlaySession(sessions[id], now);
      sessions := sessions[id := s];
      SpawnTasks(id, sources);
      assert sessions == old(sessions)[id := sessions[id]];
      return OK;
    }

    /** The loop of PLAY over the tracks. */
    method SpawnTasks(id: nat, sources: Sources)
      requires id in sessions
      modifies this`sessions, this`tasks, this`nextTask
      ensures var s := old(sessions[id]);
              && sessions == old(sessions)[id := s.(tracks := Started(s.tracks, sources, old(nextTask)))]
              && tasks == old(tasks) + NewTasks(s.tracks, sources, old(nextTask), id, s.cancel)
              && nextTask == NextTask(s.tracks, sources, old(nextTask))
    {
      hide Started, NewTasks, NextTask;
      var s := sessions[id];
      var tracks := s.tracks;
      ghost var todo := tracks;
      var k := 0;
      assert tracks[..0] + Started(todo, sources, nextTask) == Started(todo, sources, nextTask);
      while k < |tracks|
        invariant k <= |tracks| == |s.tracks| && sessions == old(sessions)
        invariant todo == s.tracks[k..] == tracks[k..]
        invariant tracks[..k] + Started(todo, sources, nextTask) == Started(s.tracks, sources, old(nextTask))
        invariant tasks + NewTasks(todo, sources, nextTask, id, s.cancel)
               == old(tasks) + NewTasks(s.tracks, sources, old(nextTask), id, s.cancel)
        invariant NextTask(todo, sources, nextTask) == NextTask(s.tracks, sources, old(nextTask))
      {
        StartFirst(todo, sources, nextTask, id, s.cancel);
        assert todo[0] == tracks[k] && todo[1..] == s.tracks[k + 1..];
        ghost var before, was, first := tracks, tasks, nextTask;
        todo := todo[1..];
        if Starts(tracks[k], sources) {
          FreshTask(todo, sources, first, id, s.cancel);
          tasks := tasks[nextTask := Task(id, tracks[k].trackId, s.cancel)];
          tracks := tracks[k := tracks[k].(task := Some(nextTask))];
          nextTask := nextTask + 1;
        }
        assert tracks[..k + 1] == before[..k] + [tracks[k]];
        assert before[..k] + ([tracks[k]] + Started(todo, sources, nextTask))
            == tracks[..k + 1] + Started(todo, sources, nextTask);
        k := k + 1;
      }
      StartNone(sources, nextTask, id, s.cancel);
      assert tracks[..k] == tracks && tracks + [] == tracks;
      sessions := sessions[id := s.(tracks := tracks)];
    }

    method HandlePause(session: Option<nat>, now: nat) returns (status: nat)
      modifies this
      ensures (View(), status) == Pause(old(View()), session, now)
    {
      if session.None? || session.value !in sessions {
        return SESSION_NOT_FOUND;
      }
      var id := session.value;
      var s := sessions[id];
      match s.state {
        case Ready => return NOT_VALID_IN_STATE;
        case Paused =>
        case Playing => s := s.(state := Paused, lastActivity := now);
      }
      cancelled := cancelled + {s.cancel};
      var tracks := AbortTasks(s.tracks);
      sessions := sessions[id := s.(tracks := tracks, cancel := nextToken)];
      nextToken := nextToken + 1;
      return OK;
    }

    /** The loop of PAUSE and of a teardown: every handle is taken out and its task aborted. */
    method AbortTasks(tracks: seq<Track>) returns (r: seq<Track>)
      modifies this`aborted
      ensures r == Stopped(tracks) && aborted == old(aborted) + Handles(tracks)
    {
      r := tracks;
      for k := 0 to |tracks|
        invariant |r| == |tracks|
        invariant forall i :: 0 <= i < k ==> r[i] == tracks[i].(task := None)
        invariant forall i :: k <= i < |r| ==> r[i] == tracks[i]
        invariant aborted == old(aborted) + Handles(tracks[..k])
      {
        HandlesSnoc(tracks[..k], tracks[k]);
        assert tracks[..k] + [tracks[k]] == tracks[..k + 1];
        if r[k].task.Some? {
          aborted := aborted + {r[k].task.value};
          r := r[k := r[k].(task := None)];
        }
      }
      assert tracks[..|tracks|] == tracks;
    }

    method Remove(id: nat) returns (found: bool)
      modifies this
      ensures found == (id in old(sessions)) && View() == Without(old(View()), {id})
    {
      found := id in sessions;
      ghost var before := View();
      if found {
        var s := sessions[id];
        sessions := sessions - {id};
        cancelled := cancelled + {s.cancel};
        var _ := AbortTasks(s.tracks);
      }
      WithoutOne(before, id);
    }

    method HandleTeardown(session: Option<nat>) returns (status: nat)
      modifies this
      ensures (View(), status) == Teardown(old(View()), session)
    {
      hide Without;
      if session.None? {
        return SESSION_NOT_FOUND;
      }
      ghost var before := View();
      var found := Remove(session.value);
      if !found {
        WithoutAbsent(before, session.value);
        return SESSION_NOT_FOUND;
      }
      return OK;
    }

    /** The ids are collected first and then removed one by one, in whatever order. */
    method ReapExpired(now: nat)
      modifies this
      ensures View() == Without(old(View()), ExpiredIds(old(View()), timeout, now))
    {
      hide Without;
      ghost var before := View();
      var expired := set id | id in sessions && Expired(sessions[id], timeout, now);
      RemoveEach(expired);
    }

    method TeardownAll()
      modifies this
      ensures View() == Without(old(View()), old(sessions).Keys)
    {
      RemoveEach(sessions.Keys);
    }

    method RemoveEach(ids: set<nat>)
      modifies this
      ensures View() == Without(old(View()), ids)
    {
      hide Without;
      ghost var before := View();
      var left := ids;
      WithoutNone(before);
      assert ids - left == {};
      while left != {}
        invariant left <= ids && View() == Without(before, ids - left)
        decreases |left|
      {
        var id :| id in left;
        WithoutTwice(before, ids - left, {id});
        assert ids - left + {id} == ids - (left - {id});
        var _ := Remove(id);
        left := left - {id};
      }
      assert ids - left == ids;
    }

    method CancelManager()
      modifies this`shutDown
      ensures View() == CancelRoot(old(View()))
    {
      shutDown := true;
    }

    /** What a sender task does last, on its own. */
    method TaskReturns(t: nat)
      requires t in tasks
      modifies this`ended
      ensures View() == EndTask(old(View()), t)
    {
      ended := ended + {t};
    }

    method HandleTouch(id: nat, now: nat)
      modifies this`sessions
      ensures View() == Touch(old(View()), id, now)
    {
      if id in sessions {
        sessions := sessions[id := sessions[id].(lastActivity := now)];
      }
    }
  }

  // ----- Facts the methods use -----

  lemma StartFirst(tracks: seq<Track>, sources: Sources, next: nat, id: nat, token: nat)
    requires tracks != []
    ensures var t, rest, starts := tracks[0], tracks[1..], Starts(tracks[0], sources);
            var next' := if starts then next + 1 else next;
            && Started(tracks, sources, next)
               == [if starts then t.(task := Some(next)) else t] + Started(rest, sources, next')
            && NewTasks(tracks, sources, next, id, token)
               == (if starts then NewTasks(rest, sources, next', id, token)[next := Task(id, t.trackId, token)]
                   else NewTasks(rest, sources, next', id, token))
            && NextTask(tracks, sources, next) == NextTask(rest, sources, next')
  {
  }

  lemma StartNone(sources: Sources, next: nat, id: nat, token: nat)
    ensures Started([], sources, next) == [] && NewTasks([], sources, next, id, token) == map[]
    ensures NextTask([], sources, next) == next
  {
  }

  /** Tasks spawned for the rest of the tracks have larger numbers. */
  lemma {:induction false} NewTasksFrom(tracks: seq<Track>, sources: Sources, next: nat, id: nat, token: nat)
    ensures forall t :: t in NewTasks(tracks, sources, next, id, token) ==> next <= t < NextTask(tracks, sources, next)
  {
    if tracks != [] {
      NewTasksFrom(tracks[1..], sources, if Starts(tracks[0], sources) then next + 1 else next, id, token);
    }
  }

  lemma FreshTask(rest: seq<Track>, sources: Sources, next: nat, id: nat, token: nat)
    ensures next !in NewTasks(rest, sources, next + 1, id, token)
  {
    hide NewTasks;
    NewTasksFrom(rest, sources, next + 1, id, token);
  }

  lemma HandlesSnoc(tracks: seq<Track>, t: Track)
    ensures Handles(tracks + [t]) == Handles(tracks) + if t.task.Some? then {t.task.value} else {}
  {
    var all := tracks + [t];
    forall x | x in Handles(tracks) ensures x in Handles(all) {
      var k :| 0 <= k < |tracks| && tracks[k].task == Some(x);
      assert all[k].task == Some(x);
    }
    if t.task.Some? {
      assert all[|tracks|].task == t.task;
    }
  }

  lemma WithoutOne(w: World, id: nat)
    ensures Without(w, {id}) == if id !in w.sessions then w else
      var s := w.sessions[id];
      w.(sessions := w.sessions - {id}, cancelled := w.cancelled + {s.cancel}, aborted := w.aborted + Handles(s.tracks))
  {
  }

  lemma WithoutAbsent(w: World, id: nat)
    requires id !in w.sessions
    ensures Without(w, {id}) == w
  {
  }

  lemma WithoutNone(w: World)
    ensures Without(w, {}) == w
  {
  }

  lemma WithoutTwice(w: World, a: set<nat>, b: set<nat>)
    ensures Without(Without(w, a), b) == Without(w, a + b)
  {
  }
}
