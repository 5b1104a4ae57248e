/**
 Runs of the RTSP handlers over many sessions: in every reachable state a session has at most one
 video and one audio track, tasks run only for playing sessions, and no task runs that its session
 does not hold.
 */
module RtspRuns {
  import opened Common
  import opened TransportHeader
  import opened RtspSession

  datatype Event =
    | SetupEvent(req: SetupRequest)
    | PlayEvent(session: Option<nat>, sources: Sources, now: nat)
    | PauseEvent(session: Option<nat>, now: nat)
    | TeardownEvent(session: Option<nat>)
    | ReapEvent(timeout: nat, now: nat)
    | TouchEvent(id: nat, now: nat)
    | RootCancelled
    | TeardownAllEvent
    | TaskEnded(task: nat)

  function Apply(w: World, e: Event): World {
    match e
    case SetupEvent(req) => Setup(w, req).0
    case PlayEvent(session, sources, now) => Play(w, session, sources, now).0
    case PauseEvent(session, now) => Pause(w, session, now).0
    case TeardownEvent(session) => Teardown(w, session).0
    case ReapEvent(timeout, now) => Without(w, ExpiredIds(w, timeout, now))
    case TouchEvent(id, now) => Touch(w, id, now)
    case RootCancelled => CancelRoot(w)
    case TeardownAllEvent => Without(w, w.sessions.Keys)
    case TaskEnded(task) => EndTask(w, task)
  }

  function Reached(events: seq<Event>): World
    decreases |events|
  {
    if events == [] then EMPTY else Apply(Reached(events[..|events| - 1]), events[|events| - 1])
  }

  /** A token is cancelled by itself or with the token of the manager. */
  predicate IsCancelled(w: World, token: nat) {
    w.shutDown || token in w.cancelled
  }

  /** A task that still sends: not aborted, not told to stop by its token, and not ended by itself. */
  predicate Live(w: World, t: nat) {
    t in w.tasks && t !in w.aborted && !IsCancelled(w, w.tasks[t].token) && t !in w.ended
  }

  /** Some task sends for this track of this session. */
  ghost predicate TrackSends(w: World, id: nat, trackId: nat) {
    exists t :: Live(w, t) && w.tasks[t].session == id && w.tasks[t].trackId == trackId
  }

  // ----- The invariant -----

  /** At most one video track, numbered 0, and one audio track, numbered 1. */
  ghost predicate TracksOk(tracks: seq<Track>) {
    && |tracks| <= 2
    && (forall k :: 0 <= k < |tracks| ==> tracks[k].trackId == if tracks[k].mediaType.Video? then 0 else 1)
    && (forall j, k :: 0 <= j < k < |tracks| ==> tracks[j].trackId != tracks[k].trackId)
  }

  /** A handle is one on a task of this track, spawned with the token the session has now. */
  predicate HandleOk(w: World, id: nat, s: Session, track: Track) {
    track.task.Some? ==>
      && track.task.value in w.tasks && track.task.value !in w.aborted
      && w.tasks[track.task.value] == Task(id, track.trackId, s.cancel)
  }

  ghost predicate SessionOk(w: World, id: nat, s: Session) {
    && id < w.nextSession && s.cancel < w.nextToken && s.cancel !in w.cancelled
    && TracksOk(s.tracks)
    && (forall k :: 0 <= k < |s.tracks| ==> HandleOk(w, id, s, s.tracks[k]))
    && (!s.state.Playing? ==> forall k :: 0 <= k < |s.tracks| ==> s.tracks[k].task.None?)
  }

  predicate HasHandle(tracks: seq<Track>, t: nat) {
    exists k :: 0 <= k < |tracks| && tracks[k].task == Some(t)
  }

  ghost predicate TaskOk(w: World, t: nat)
    requires t in w.tasks
  {
    && t < w.nextTask && w.tasks[t].token < w.nextToken
    && (Live(w, t) ==>
          w.tasks[t].session in w.sessions && HasHandle(w.sessions[w.tasks[t].session].tracks, t))
  }

  ghost predicate SessionsOk(w: World) {
    forall id :: id in w.sessions ==> SessionOk(w, id, w.sessions[id])
  }

  ghost predicate TasksOk(w: World) {
    forall t :: t in w.tasks ==> TaskOk(w, t)
  }

  ghost predicate TokensDistinct(w: World) {
    forall a, b :: a in w.sessions && b in w.sessions && w.sessions[a].cancel == w.sessions[b].cancel ==> a == b
  }

  ghost predicate Bounded(w: World) {
    (forall t :: t in w.aborted + w.ended ==> t < w.nextTask) && (forall c :: c in w.cancelled ==> c < w.nextToken)
  }

  ghost predicate Inv(w: World) {
    SessionsOk(w) && TasksOk(w) && TokensDistinct(w) && Bounded(w)
  }

  // ----- SETUP and keepalive -----

  lemma SetupKeeps(w: World, req: SetupRequest)
    requires Inv(w)
    ensures Inv(Setup(w, req).0)
  {
    hide Inv, CheckSetup;
    var checked := CheckSetup(req);
    var (w', status) := Setup(w, req);
    if status == OK && checked.Ok? {
      CheckedTrack(req);
      if req.session.Some? {
        var id := req.session.value;
        var s := w.sessions[id];
        var s' := AddTrack(s, checked.value, req.now);
        TracksAdd(s.tracks, checked.value) by {
          assert SessionOk(w, id, s) by { InvSession(w, id); }
        }
        ReplaceKeeps(w, id, s');
      } else {
        AddKeeps(w, req.instance.value, checked.value, req.now);
      }
    }
  }

  lemma InvSession(w: World, id: nat)
    requires Inv(w) && id in w.sessions
    ensures SessionOk(w, id, w.sessions[id])
  {
  }

  lemma CheckedTrack(req: SetupRequest)
    requires CheckSetup(req).Ok?
    ensures var t := CheckSetup(req).value; t.task.None? && t.trackId == if t.mediaType.Video? then 0 else 1
    ensures req.instance.Some?
  {
  }

  lemma TracksAdd(tracks: seq<Track>, t: Track)
    requires TracksOk(tracks) && t.trackId == (if t.mediaType.Video? then 0 else 1)
    requires !HasTrack(tracks, t.trackId)
    ensures TracksOk(tracks + [t])
  {
    if |tracks| == 2 {
      BothTracks(tracks, t.trackId);
    }
  }

  lemma BothTracks(tracks: seq<Track>, trackId: nat)
    requires TracksOk(tracks) && |tracks| == 2 && trackId <= 1
    ensures HasTrack(tracks, trackId)
  {
    assert tracks[0].trackId == trackId || tracks[1].trackId == trackId;
  }

  /** A session that gains at most tracks without tasks. */
  lemma ReplaceKeeps(w: World, id: nat, s': Session)
    requires Inv(w) && id in w.sessions
    requires var s := w.sessions[id];
             && s'.cancel == s.cancel && s'.state == s.state && |s'.tracks| >= |s.tracks|
             && (forall k :: 0 <= k < |s.tracks| ==> s'.tracks[k] == s.tracks[k])
             && (forall k :: |s.tracks| <= k < |s'.tracks| ==> s'.tracks[k].task.None?)
    requires TracksOk(s'.tracks)
    ensures Inv(w.(sessions := w.sessions[id := s']))
  {
  }

  lemma AddKeeps(w: World, instance: InstanceId, track: Track, now: nat)
    requires Inv(w) && track.task.None? && track.trackId == if track.mediaType.Video? then 0 else 1
    ensures Inv(w.(sessions := w.sessions[w.nextSession := Session(instance, Ready, [] + [track], now, w.nextToken)],
                   nextSession := w.nextSession + 1, nextToken := w.nextToken + 1))
  {
  }

  /** A session is not touched by what happens to other sessions and their tasks. */
  lemma SessionFrame(w: World, w': World, id: nat)
    requires id in w.sessions && id in w'.sessions && w'.sessions[id] == w.sessions[id]
    requires SessionOk(w, id, w.sessions[id])
    requires w.nextSession <= w'.nextSession && w.nextToken <= w'.nextToken
    requires w.sessions[id].cancel !in w'.cancelled
    requires forall t :: t in w.tasks ==> t in w'.tasks && w'.tasks[t] == w.tasks[t]
    requires forall t :: t in w'.aborted && t in w.tasks && w.tasks[t].session == id ==> t in w.aborted
    ensures SessionOk(w', id, w'.sessions[id])
  {
  }

  lemma TouchKeeps(w: World, id: nat, now: nat)
    requires Inv(w)
    ensures Inv(Touch(w, id, now))
  {
  }

  // ----- PLAY -----

  /** What PLAY makes of one track. */
  lemma {:induction false} StartedAt(tracks: seq<Track>, sources: Sources, next: nat, id: nat, token: nat, k: nat)
    requires k < |tracks|
    ensures var t, t' := tracks[k], Started(tracks, sources, next)[k];
            var spawned := NewTasks(tracks, sources, next, id, token);
            && t' == t.(task := t'.task)
            && (!Starts(t, sources) ==> t' == t)
            && (Starts(t, sources) ==> t'.task.Some? && t'.task.value in spawned
                                       && spawned[t'.task.value] == Task(id, t.trackId, token))
    decreases k
  {
    hide Started, NewTasks, Starts;
    StartFirst(tracks, sources, next, id, token);
    var next' := if Starts(tracks[0], sources) then next + 1 else next;
    if k > 0 {
      StartedAt(tracks[1..], sources, next', id, token, k - 1);
      FreshTask(tracks[1..], sources, next, id, token);
    }
  }

  /** Every task PLAY spawns has its handle in a track. */
  lemma {:induction false} SpawnedHasHandle(
    tracks: seq<Track>, sources: Sources, next: nat, id: nat, token: nat, t: nat)
    returns (k: nat)
    requires t in NewTasks(tracks, sources, next, id, token)
    ensures k < |tracks| && Started(tracks, sources, next)[k].task == Some(t)
    ensures next <= t < NextTask(tracks, sources, next)
    ensures var task := NewTasks(tracks, sources, next, id, token)[t]; task.session == id && task.token == token
  {
    NewTasksFrom(tracks, sources, next, id, token);
    var next' := if Starts(tracks[0], sources) then next + 1 else next;
    if Starts(tracks[0], sources) && t == next {
      k := 0;
    } else {
      var j := SpawnedHasHandle(tracks[1..], sources, next', id, token, t);
      k := j + 1;
    }
  }

  lemma PlayKeeps(w: World, session: Option<nat>, sources: Sources, now: nat)
    requires Inv(w)
    ensures Inv(Play(w, session, sources, now).0)
  {
    hide Started, NewTasks, NextTask, Starts, TracksOk;
    if session.Some? && session.value in w.sessions {
      var id := session.value;
      var s := PlaySession(w.sessions[id], now);
      var w' := Play(w, session, sources, now).0;
      var spawned := NewTasks(s.tracks, sources, w.nextTask, id, s.cancel);
      NewTasksFrom(s.tracks, sources, w.nextTask, id, s.cancel);
      assert SessionOk(w, id, w.sessions[id]);
      OldTasksStay(w, w', spawned);
      forall x | x in w'.sessions ensures SessionOk(w', x, w'.sessions[x]) {
        if x == id {
          PlayedSessionOk(w, w', id, s, sources);
        } else {
          assert SessionOk(w, x, w.sessions[x]);
          SessionFrame(w, w', x);
        }
      }
      forall t | t in w'.tasks ensures TaskOk(w', t) {
        if t in spawned {
          var k := SpawnedHasHandle(s.tracks, sources, w.nextTask, id, s.cancel, t);
          assert w'.sessions[id].tracks[k].task == Some(t);
        } else {
          assert TaskOk(w, t);
          if Live(w, t) && w.tasks[t].session == id {
            KeptHandle(s.tracks, sources, w.nextTask, id, s.cancel, t);
          }
        }
      }
    }
  }

  lemma OldTasksStay(w: World, w': World, spawned: map<nat, Task>)
    requires TasksOk(w) && w'.tasks == w.tasks + spawned
    requires forall t :: t in spawned ==> t >= w.nextTask
    ensures forall t :: t in w.tasks ==> t in w'.tasks && w'.tasks[t] == w.tasks[t]
  {
  }

  lemma KeptHandle(tracks: seq<Track>, sources: Sources, next: nat, id: nat, token: nat, t: nat)
    requires HasHandle(tracks, t)
    ensures HasHandle(Started(tracks, sources, next), t)
  {
    hide Started, NewTasks;
    var k :| 0 <= k < |tracks| && tracks[k].task == Some(t);
    StartedAt(tracks, sources, next, id, token, k);
    assert Started(tracks, sources, next)[k].task == Some(t);
  }

  lemma PlayedSessionOk(w: World, w': World, id: nat, s: Session, sources: Sources)
    requires id in w.sessions && SessionOk(w, id, w.sessions[id])
    requires s.tracks == w.sessions[id].tracks && s.cancel == w.sessions[id].cancel && s.state.Playing?
    requires var spawned := NewTasks(s.tracks, sources, w.nextTask, id, s.cancel);
             && w'.tasks == w.tasks + spawned && w'.aborted == w.aborted && w'.cancelled == w.cancelled
             && (forall t :: t in w.tasks ==> t in w'.tasks && w'.tasks[t] == w.tasks[t])
             && (forall t :: t in spawned ==> t >= w.nextTask)
    requires Bounded(w) && w'.nextSession == w.nextSession && w'.nextToken == w.nextToken
    ensures SessionOk(w', id, s.(tracks := Started(s.tracks, sources, w.nextTask)))
  {
    hide Started, NewTasks, Starts;
    var tracks' := Started(s.tracks, sources, w.nextTask);
    forall k | 0 <= k < |tracks'|
      ensures tracks'[k].trackId == s.tracks[k].trackId && tracks'[k].mediaType == s.tracks[k].mediaType
      ensures HandleOk(w', id, s, tracks'[k])
    {
      StartedAt(s.tracks, sources, w.nextTask, id, s.cancel, k);
      assert HandleOk(w, id, w.sessions[id], s.tracks[k]);
    }
  }

  // ----- PAUSE and removal -----

  lemma PauseKeeps(w: World, session: Option<nat>, now: nat)
    requires Inv(w)
    ensures Inv(Pause(w, session, now).0)
  {
    hide TracksOk, Stopped;
    var (w', status) := Pause(w, session, now);
    if status == OK {
      var id := session.value;
      var s := w.sessions[id];
      assert SessionOk(w, id, s);
      StoppedOk(s.tracks);
      forall x | x in w'.sessions ensures SessionOk(w', x, w'.sessions[x]) {
        if x != id {
          assert SessionOk(w, x, w.sessions[x]);
          HandlesBelong(w, id);
          SessionFrame(w, w', x);
        }
      }
      forall t | t in w'.tasks ensures TaskOk(w', t) {
        assert TaskOk(w, t);
        if Live(w, t) && w.tasks[t].session == id {
          InHandles(s.tracks, t);
        }
      }
      HandlesBelong(w, id);
      assert Bounded(w') && TokensDistinct(w') by {
        forall x | x in w.sessions ensures w.sessions[x].cancel < w.nextToken {
          assert SessionOk(w, x, w.sessions[x]);
        }
      }
    }
  }

  lemma StoppedOk(tracks: seq<Track>)
    requires TracksOk(tracks)
    ensures TracksOk(Stopped(tracks))
  {
  }

  lemma InHandles(tracks: seq<Track>, t: nat)
    ensures t in Handles(tracks) <==> HasHandle(tracks, t)
  {
  }

  /** The handles of a session are on its own tasks. */
  lemma HandlesBelong(w: World, id: nat)
    requires TasksOk(w) && id in w.sessions && SessionOk(w, id, w.sessions[id])
    ensures forall t :: t in Handles(w.sessions[id].tracks) ==>
              t in w.tasks && w.tasks[t].session == id && w.tasks[t].token == w.sessions[id].cancel && t < w.nextTask
  {
  }

  lemma WithoutKeeps(w: World, ids: set<nat>)
    requires Inv(w)
    ensures Inv(Without(w, ids))
  {
    hide Handles, TracksOk;
    var w' := Without(w, ids);
    forall x | x in w.sessions && x in ids
      ensures forall t :: t in Handles(w.sessions[x].tracks) ==> t in w.tasks && w.tasks[t].session == x
      ensures w.sessions[x].cancel < w.nextToken
    {
      assert SessionOk(w, x, w.sessions[x]);
      HandlesBelong(w, x);
    }
    forall x | x in w'.sessions ensures SessionOk(w', x, w'.sessions[x]) {
      assert SessionOk(w, x, w.sessions[x]);
      SessionFrame(w, w', x);
    }
    forall t | t in w'.tasks ensures TaskOk(w', t) {
      assert TaskOk(w, t);
      if Live(w', t) {
        InHandles(w.sessions[w.tasks[t].session].tracks, t);
      }
    }
    assert Bounded(w') by {
      forall t | t in w'.aborted && t !in w.aborted ensures t < w.nextTask {
        assert TaskOk(w, t);
      }
    }
  }

  lemma RootKeeps(w: World)
    requires Inv(w)
    ensures Inv(CancelRoot(w))
  {
  }

  lemma EndKeeps(w: World, t: nat)
    requires Inv(w)
    ensures Inv(EndTask(w, t))
  {
  }

  // ----- Every reachable state -----

  lemma StepKeeps(w: World, e: Event)
    requires Inv(w)
    ensures Inv(Apply(w, e))
  {
    hide Inv, Setup, Play, Pause, Without;
    match e {
      case SetupEvent(req) => SetupKeeps(w, req);
      case PlayEvent(session, sources, now) => PlayKeeps(w, session, sources, now);
      case PauseEvent(session, now) => PauseKeeps(w, session, now);
      case TeardownEvent(session) =>
        if session.Some? {
          WithoutKeeps(w, {session.value});
        }
      case ReapEvent(timeout, now) => WithoutKeeps(w, ExpiredIds(w, timeout, now));
      case TouchEvent(id, now) => TouchKeeps(w, id, now);
      case RootCancelled => RootKeeps(w);
      case TeardownAllEvent => WithoutKeeps(w, w.sessions.Keys);
      case TaskEnded(task) => EndKeeps(w, task);
    }
  }

  lemma {:induction false} ReachedOk(events: seq<Event>)
    ensures Inv(Reached(events))
    decreases |events|
  {
    hide Inv, Apply;
    if events == [] {
      EmptyOk();
    } else {
      ReachedOk(events[..|events| - 1]);
      StepKeeps(Reached(events[..|events| - 1]), events[|events| - 1]);
    }
  }

  lemma EmptyOk()
    ensures Inv(EMPTY)
  {
  }

  /** Track ids are distinct: 0 is the video track, 1 the audio track, and there is at most one of each. */
  lemma TrackIdsDistinct(events: seq<Event>, id: nat)
    requires id in Reached(events).sessions
    ensures TracksOk(Reached(events).sessions[id].tracks)
  {
    hide Reached;
    ReachedOk(events);
    InvSession(Reached(events), id);
  }

  /**
   What SETUP adds: the track with the number asked for, or, without a number, video when only video
   is asked for and else audio; with the transport asked for and nothing running.
   */
  predicate IsNewTrack(t: Track, req: SetupRequest) {
    && Some(t.mode) == req.transport && t.task.None?
    && (req.trackId.Some? ==> t.trackId == req.trackId.value)
    && (req.trackId.None? ==> (t.mediaType.Video? <==> req.media.video && !req.media.audio))
    && t.trackId == (if t.mediaType.Video? then 0 else 1)
    && (t.mode.UdpUnicast? ==> Some((t.serverRtp, t.serverRtcp)) == req.ports)
    && (t.mode.TcpInterleaved? ==> t.serverRtp == 0 && t.serverRtcp == 0)
  }

  /** What the answer to a SETUP says, in the order in which the checks are made. */
  lemma SetupAnswers(w: World, req: SetupRequest)
    ensures var status := Setup(w, req).1;
            var unknown := req.instance.None? || !req.known;
            var noTrack := req.trackId.Some? && req.trackId.value > 1;
            var noPorts := req.transport.Some? && req.transport.value.UdpUnicast? && req.ports.None?;
            var foreign := req.session.Some? && (req.session.value !in w.sessions
                                                 || Some(w.sessions[req.session.value].instance) != req.instance);
            && (status == 200 || status == 404 || status == 454 || status == 455 || status == 461 || status == 500)
            && (status == 404 <==> unknown || (req.transport.Some? && !noPorts && noTrack))
            && (status == 461 <==> !unknown && req.transport.None?)
            && (status == 500 <==> !unknown && noPorts)
            && (status == 454 <==> !unknown && req.transport.Some? && !noPorts && !noTrack && foreign)
            && (status == 455 ==> req.session.Some? && !foreign)
            && (status == 200 && req.session.Some? ==> !foreign)
  {
  }

  /** In a session of its own a track can be set up once: the answer is 455 exactly when it is there already. */
  lemma SetupTwiceRefused(w: World, req: SetupRequest, s: Session)
    requires req.session.Some? && req.session.value in w.sessions && w.sessions[req.session.value] == s
    requires Setup(w, req).1 == 200 || Setup(w, req).1 == 455
    ensures Setup(w, req).1 == 455 <==>
            exists k :: 0 <= k < |s.tracks| && s.tracks[k].trackId ==
              (if req.trackId.Some? then req.trackId.value else if req.media.video && !req.media.audio then 0 else 1)
  {
  }

  /** What the other requests are answered. */
  lemma OtherAnswers(w: World, session: Option<nat>, sources: Sources, now: nat)
    ensures var there := session.Some? && session.value in w.sessions;
            && Play(w, session, sources, now).1 == (if there then 200 else 454)
            && Teardown(w, session).1 == (if there then 200 else 454)
            && Pause(w, session, now).1
               == (if !there then 454 else if w.sessions[session.value].state.Ready? then 455 else 200)
            && (!there ==> Play(w, session, sources, now).0 == w && Teardown(w, session).0 == w)
            && (Pause(w, session, now).1 != 200 ==> Pause(w, session, now).0 == w)
  {
  }

  lemma CheckedIsNew(req: SetupRequest)
    ensures CheckSetup(req).Ok? ==> IsNewTrack(CheckSetup(req).value, req) && req.instance.Some?
    ensures CheckSetup(req).Err? ==> CheckSetup(req).error != 200
  {
  }

  /** A refused SETUP changes nothing; an accepted one adds one track to one session of that instance. */
  lemma SetupIsExact(events: seq<Event>, req: SetupRequest) returns (id: nat)
    ensures var w, (w', status) := Reached(events), Setup(Reached(events), req);
            && (status != 200 ==> w' == w)
            && (status == 200 ==>
                  && w'.sessions.Keys == w.sessions.Keys + {id}
                  && (forall x :: x in w.sessions && x != id ==> w'.sessions[x] == w.sessions[x])
                  && (req.session.Some? ==> id == req.session.value && id in w.sessions)
                  && (req.session.None? ==> id !in w.sessions && w'.sessions[id].state.Ready?)
                  && Some(w'.sessions[id].instance) == req.instance && w'.sessions[id].lastActivity == req.now
                  && var before := if id in w.sessions then w.sessions[id].tracks else [];
                     |w'.sessions[id].tracks| == |before| + 1 && before <= w'.sessions[id].tracks
                     && IsNewTrack(w'.sessions[id].tracks[|before|], req))
  {
    hide Reached, CheckSetup, IsNewTrack;
    ReachedOk(events);
    CheckedIsNew(req);
    var w := Reached(events);
    id := if req.session.Some? then req.session.value else w.nextSession;
    forall x | x in w.sessions ensures x < w.nextSession {
      InvSession(w, x);
    }
  }

  /** A task runs only for a playing session, under the session's current token, and in one of its tracks. */
  lemma TasksOnlyWhilePlaying(events: seq<Event>, t: nat)
    requires Live(Reached(events), t)
    ensures var w := Reached(events);
            var task := w.tasks[t];
            && task.session in w.sessions
            && w.sessions[task.session].state.Playing?
            && w.sessions[task.session].cancel == task.token
            && HasHandle(w.sessions[task.session].tracks, t)
  {
    hide Reached;
    ReachedOk(events);
    var w := Reached(events);
    assert TaskOk(w, t);
    var id := w.tasks[t].session;
    assert SessionOk(w, id, w.sessions[id]);
    var tracks := w.sessions[id].tracks;
    var k :| 0 <= k < |tracks| && tracks[k].task == Some(t);
    assert HandleOk(w, id, w.sessions[id], tracks[k]);
  }

  /** Once the token of the manager is cancelled no task sends, whatever is requested later. */
  lemma {:induction false} NothingSendsAfterShutdown(before: seq<Event>, after: seq<Event>, t: nat)
    ensures !Live(Reached(before + [RootCancelled] + after), t)
    decreases |after|
  {
    StaysShutDown(before, after);
  }

  lemma {:induction false} StaysShutDown(before: seq<Event>, after: seq<Event>)
    ensures Reached(before + [RootCancelled] + after).shutDown
    decreases |after|
  {
    var events := before + [RootCancelled] + after;
    if after == [] {
      assert events[|events| - 1] == RootCancelled;
    } else {
      assert events[..|events| - 1] == before + [RootCancelled] + after[..|after| - 1];
      StaysShutDown(before, after[..|after| - 1]);
    }
  }

  /** Removing sessions stops exactly their tasks. */
  lemma RemovalIsExact(events: seq<Event>, ids: set<nat>, t: nat)
    ensures var w := Reached(events);
            Live(Without(w, ids), t) <==> Live(w, t) && w.tasks[t].session !in ids
  {
    hide Reached, Handles;
    ReachedOk(events);
    var w := Reached(events);
    if Live(w, t) {
      TasksOnlyWhilePlaying(events, t);
      var id := w.tasks[t].session;
      if id in ids {
        InHandles(w.sessions[id].tracks, t);
      } else {
        forall x | x in w.sessions && x in ids ensures t !in Handles(w.sessions[x].tracks) {
          assert SessionOk(w, x, w.sessions[x]);
          HandlesBelong(w, x);
        }
        assert TokensDistinct(w);
      }
    }
  }

  /** Reaping removes the sessions idle for longer than the timeout and no others, and changes no session. */
  lemma ReapIsExact(w: World, timeout: nat, now: nat, id: nat)
    ensures var w' := Without(w, ExpiredIds(w, timeout, now));
            && (id in w'.sessions <==> id in w.sessions && now - w.sessions[id].lastActivity <= timeout)
            && (id in w'.sessions ==> w'.sessions[id] == w.sessions[id])
  {
  }

  /** A session that was active at `then` is there after every reaping up to `timeout` later. */
  lemma TouchedSurvives(w: World, id: nat, active: nat, timeout: nat, now: nat)
    requires id in w.sessions && now <= active + timeout
    ensures var touched := Touch(w, id, active);
            && id in Without(touched, ExpiredIds(touched, timeout, now)).sessions
            && touched.sessions[id] == w.sessions[id].(lastActivity := active)
            && (forall x :: x != id && x in w.sessions ==>
                  x in touched.sessions && touched.sessions[x] == w.sessions[x])
  {
  }

  /** The token of a session removed is cancelled and every task it has a handle on is aborted. */
  lemma RemovedIsTornDown(w: World, ids: set<nat>, id: nat)
    requires id in w.sessions && id in ids
    ensures var w' := Without(w, ids);
            && id !in w'.sessions && w.sessions[id].cancel in w'.cancelled
            && (forall x :: HasHandle(w.sessions[id].tracks, x) ==> x in w'.aborted)
  {
    hide Handles, HasHandle;
    forall x | HasHandle(w.sessions[id].tracks, x) ensures x in Handles(w.sessions[id].tracks) {
      InHandles(w.sessions[id].tracks, x);
    }
  }

  /** A PAUSE that is answered with 200 stops all tasks of that session and no others. */
  lemma PauseIsExact(events: seq<Event>, id: nat, now: nat, t: nat)
    requires Pause(Reached(events), Some(id), now).1 == 200
    ensures var w := Reached(events);
            var w' := Pause(w, Some(id), now).0;
            && (Live(w', t) <==> Live(w, t) && w.tasks[t].session != id)
            && w'.sessions.Keys == w.sessions.Keys
            && (forall x :: x in w.sessions && x != id ==> w'.sessions[x] == w.sessions[x])
            && var s, s' := w.sessions[id], w'.sessions[id];
               && s'.state.Paused? && s'.instance == s.instance && |s'.tracks| == |s.tracks|
               && (forall k :: 0 <= k < |s.tracks| ==> s'.tracks[k] == s.tracks[k].(task := None))
               && s'.lastActivity == (if s.state.Playing? then now else s.lastActivity)
               && s.cancel in w'.cancelled && s'.cancel !in w'.cancelled
               && (forall x :: HasHandle(s.tracks, x) ==> x in w'.aborted)
  {
    hide Reached, Handles;
    ReachedOk(events);
    var w := Reached(events);
    assert SessionOk(w, id, w.sessions[id]);
    HandlesBelong(w, id);
    forall x | HasHandle(w.sessions[id].tracks, x) ensures x in Handles(w.sessions[id].tracks) {
      InHandles(w.sessions[id].tracks, x);
    }
    if Live(w, t) {
      TasksOnlyWhilePlaying(events, t);
      InHandles(w.sessions[w.tasks[t].session].tracks, t);
      assert TokensDistinct(w);
    }
  }

  /**
   After a PLAY that is answered with 200 a track sends exactly when the server is not shutting down
   and it had no task and its medium is there, or had one that has not ended: a handle is never
   looked behind, and never replaced.
   */
  lemma PlayStartsExactly(events: seq<Event>, id: nat, sources: Sources, now: nat, k: nat)
    requires Play(Reached(events), Some(id), sources, now).1 == 200
    requires k < |Reached(events).sessions[id].tracks|
    ensures var w, w' := Reached(events), Play(Reached(events), Some(id), sources, now).0;
            var track := w.sessions[id].tracks[k];
            && (TrackSends(w', id, track.trackId) <==>
                  !w.shutDown && if track.task.None? then MediumThere(track, sources)
                                 else track.task.value !in w.ended)
            && w'.sessions.Keys == w.sessions.Keys
            && (forall x :: x in w.sessions && x != id ==> w'.sessions[x] == w.sessions[x])
            && var s, s' := w.sessions[id], w'.sessions[id];
               && s'.state.Playing? && s'.instance == s.instance && s'.cancel == s.cancel
               && |s'.tracks| == |s.tracks| && s'.tracks[k].(task := None) == s.tracks[k].(task := None)
               && s'.lastActivity == (if s.state.Playing? then s.lastActivity else now)
  {
    hide Reached, Started, NewTasks, NextTask;
    ReachedOk(events);
    var w := Reached(events);
    var w' := Play(w, Some(id), sources, now).0;
    var tracks, tracks' := w.sessions[id].tracks, w'.sessions[id].tracks;
    PlayKeeps(w, Some(id), sources, now);
    assert SessionOk(w, id, w.sessions[id]);
    StartedAt(tracks, sources, w.nextTask, id, w.sessions[id].cancel, k);
    NewTasksFrom(tracks, sources, w.nextTask, id, w.sessions[id].cancel);
    assert HandleOk(w', id, w'.sessions[id], tracks'[k]);
    SendsByHandle(w', id, k);
  }

  predicate MediumThere(track: Track, sources: Sources) {
    if track.mediaType.Audio? then sources.audio else sources.video
  }

  /** A track sends exactly when it has a handle whose task has not ended. */
  lemma SendsByHandle(w: World, id: nat, k: nat)
    requires Inv(w) && id in w.sessions && k < |w.sessions[id].tracks|
    ensures var track := w.sessions[id].tracks[k];
            TrackSends(w, id, track.trackId) <==>
              !w.shutDown && track.task.Some? && track.task.value !in w.ended
  {
    var s := w.sessions[id];
    assert SessionOk(w, id, s);
    assert HandleOk(w, id, s, s.tracks[k]);
    if t :| Live(w, t) && w.tasks[t].session == id && w.tasks[t].trackId == s.tracks[k].trackId {
      assert TaskOk(w, t);
      var j :| 0 <= j < |s.tracks| && s.tracks[j].task == Some(t);
      assert HandleOk(w, id, s, s.tracks[j]);
    }
  }

  /**
   A run in which a successful PLAY leaves a track silent although its medium is there: SETUP,
   PLAY, its sender ends, PLAY.
   */
  lemma EndedTaskIsNotReplaced(instance: InstanceId) returns (events: seq<Event>, id: nat)
    ensures var w, (w', status) := Reached(events), Play(Reached(events), Some(id), Sources(true, true), 2);
            && status == OK && id in w.sessions && |w.sessions[id].tracks| == 1
            && !w.shutDown && MediumThere(w.sessions[id].tracks[0], Sources(true, true))
            && !TrackSends(w', id, w.sessions[id].tracks[0].trackId)
  {
    var req := SetupRequest(Some(instance), true, Some(TcpInterleaved(0, 1)), None, Some(0), MediaConfig(true, true),
                            None, 0);
    id := EMPTY.nextSession;
    events := [SetupEvent(req), PlayEvent(Some(id), Sources(true, true), 1), TaskEnded(EMPTY.nextTask)];
    ReachedSteps(events);
    var ready := Setup(EMPTY, req).0;
    var tracks := ready.sessions[id].tracks;
    assert tracks == [Track(0, Video, TcpInterleaved(0, 1), 0, 0, None)] && tracks[1..] == [];
    var s := PlaySession(ready.sessions[id], 1);
    StartFirst(tracks, Sources(true, true), 0, id, s.cancel);
    StartNone(Sources(true, true), 1, id, s.cancel);
    assert Reached(events).sessions[id].tracks[0].task == Some(0) && 0 in Reached(events).ended;
    PlayStartsExactly(events, id, Sources(true, true), 2, 0);
  }

  lemma ReachedSteps(events: seq<Event>)
    requires |events| == 3
    ensures Reached(events) == Apply(Apply(Apply(EMPTY, events[0]), events[1]), events[2])
  {
    hide Apply;
    var two, one := events[..2], events[..1];
    assert two[..1] == one && one[..0] == [];
    assert Reached(one) == Apply(EMPTY, events[0]);
    assert Reached(two) == Apply(Reached(one), events[1]);
  }
}
