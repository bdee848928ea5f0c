/**
 Whole runs of the controller: what a watcher does between its start and its end, that a dead data path is
 noticed, and that every session, whoever races on it, runs as module Session says.
 */
module ControllerRuns {
  import opened Prelude
  import opened Controller
  import S = Session

  /** The state before event `i` of a run. */
  ghost function At(es: seq<Event>, i: nat): State
    requires IsRun(es) && i <= |es|
  {
    if i == |es| then After(es) else At(es[..|es|-1], i)
  }

  lemma {:induction false} AtStep(es: seq<Event>, i: nat)
    requires IsRun(es) && i < |es|
    ensures Enabled(At(es, i), es[i]) && At(es, i + 1) == Apply(At(es, i), es[i])
  {
    if i == |es| - 1 {
    } else {
      AtStep(es[..|es|-1], i);
    }
  }

  lemma {:induction false} AtKeepsInv(es: seq<Event>, i: nat)
    requires IsRun(es) && i <= |es|
    ensures Inv(At(es, i))
  {
    if i == |es| {
      EveryRunKeepsInv(es);
    } else {
      AtKeepsInv(es[..|es|-1], i);
    }
  }

  // ------------------------------------------------------------------ the life of a watcher

  /** The controller goroutine whose step an event is. */
  function ActorOf(e: Event): Option<Thread> {
    match e
    case ConnectEnter(t) => Some(t)
    case ConnectRefused(t) => Some(t)
    case ConnectCompletes(t, _) => Some(t)
    case ConnectPublish(t) => Some(t)
    case WatchSpawn(t, _) => Some(t)
    case WatchFire(t) => Some(t)
    case WatchClear(t) => Some(t)
    case WatchQuit(t) => Some(t)
    case DisconnectTake(t) => Some(t)
    case CloseEnter(t) => Some(t)
    case CloseReturn(t) => Some(t)
    case SessionStep(_, _) => None
  }

  predicate WatcherPc(pc: Pc, sid: Sid) {
    pc == Watching(sid) || pc == WatchFired(sid) || pc == MustClose(sid) || pc == InClose(sid) || pc == Ended
  }

  /** Event `k` starts goroutine `t` as the watcher of `sid`. */
  ghost predicate Spawns(es: seq<Event>, k: nat, t: Thread, sid: Sid)
    requires IsRun(es)
  {
    && k < |es| && es[k].WatchSpawn? && es[k].w == t
    && es[k].t in At(es, k).threads && At(es, k).threads[es[k].t] == Spawning(sid)
  }

  lemma WatcherStep(s: State, e: Event, t: Thread, sid: Sid)
    requires Enabled(s, e) && t in s.threads && WatcherPc(s.threads[t], sid)
    ensures t in Apply(s, e).threads && WatcherPc(Apply(s, e).threads[t], sid)
  {
  }

  lemma {:induction false} WatcherStaysWatcher(es: seq<Event>, k: nat, i: nat, t: Thread, sid: Sid)
    requires IsRun(es) && Spawns(es, k, t, sid) && k < i <= |es|
    ensures t in At(es, i).threads && WatcherPc(At(es, i).threads[t], sid)
  {
    AtStep(es, i - 1);
    if i == k + 1 {
    } else {
      WatcherStaysWatcher(es, k, i - 1, t, sid);
      WatcherStep(At(es, i - 1), es[i-1], t, sid);
    }
  }

  /**
   From its start to its end, no step of a watcher changes the controller unless its own session is current; the
   one step that does clears that session and records the error for it.
   */
  lemma WatcherTouchesOnlyItsSession(es: seq<Event>, k: nat, i: nat, t: Thread, sid: Sid)
    requires IsRun(es) && Spawns(es, k, t, sid) && k < i < |es| && ActorOf(es[i]) == Some(t)
    requires At(es, i + 1).ctl != At(es, i).ctl
    ensures At(es, i).ctl.session == Some(sid)
    ensures At(es, i + 1).ctl == Ctl(false, None, PathStopped(sid)) && Committed(At(es, i + 1), sid)
  {
    WatcherStaysWatcher(es, k, i, t, sid);
    AtStep(es, i);
    AtKeepsInv(es, i);
    assert At(es, i + 1).threads[t] == MustClose(sid);
  }

  // ------------------------------------------------------------------ what a session goes through

  /** What an event of the controller is to the session `sid`: nothing, or one event of its own. */
  function SessionEvents(s: State, e: Event, sid: Sid): seq<S.Event> {
    match e
    case SessionStep(x, own) => if x == sid then [own] else []
    case WatchFire(t) => if t in s.threads && s.threads[t] == Watching(sid) then [S.TakeError] else []
    case CloseEnter(t) => if t in s.threads && s.threads[t] == MustClose(sid) then [S.CloseCall] else []
    case _ => []
  }

  /** The events of session `sid` from event `i` of the run on. */
  ghost function EventsFrom(es: seq<Event>, i: nat, sid: Sid): seq<S.Event>
    requires IsRun(es) && i <= |es|
  {
    if i == |es| then []
    else
      var front := es[..|es|-1];
      EventsFrom(front, i, sid) + SessionEvents(After(front), es[|es|-1], sid)
  }

  lemma StepProjects(s: State, e: Event, sid: Sid)
    requires Enabled(s, e) && sid in s.sessions
    ensures sid in Apply(s, e).sessions
    ensures var own := SessionEvents(s, e, sid);
            if own == [] then Apply(s, e).sessions[sid] == s.sessions[sid]
            else |own| == 1 && S.Enabled(s.sessions[sid], own[0])
                 && Apply(s, e).sessions[sid] == S.Apply(s.sessions[sid], own[0])
  {
  }

  lemma RunSnoc(s: S.State, run: seq<S.Event>, own: seq<S.Event>)
    requires S.IsRun(s, run) && |own| <= 1 && (own != [] ==> S.Enabled(S.After(s, run), own[0]))
    ensures S.IsRun(s, run + own)
    ensures S.After(s, run + own) == if own == [] then S.After(s, run) else S.Apply(S.After(s, run), own[0])
  {
    if own == [] {
      assert run + own == run;
    } else {
      assert (run + own)[..|run|] == run && (run + own)[|run|] == own[0];
    }
  }

  /** From any point on, a session's part of the run is a run of the session, and leads where the controller's does. */
  lemma {:induction false} SessionRuns(es: seq<Event>, i: nat, sid: Sid)
    requires IsRun(es) && i <= |es| && sid in At(es, i).sessions
    ensures sid in After(es).sessions && S.IsRun(At(es, i).sessions[sid], EventsFrom(es, i, sid))
    ensures S.After(At(es, i).sessions[sid], EventsFrom(es, i, sid)) == After(es).sessions[sid]
  {
    if i == |es| {
    } else {
      var front, e := es[..|es|-1], es[|es|-1];
      SessionRuns(front, i, sid);
      StepProjects(After(front), e, sid);
      RunSnoc(At(es, i).sessions[sid], EventsFrom(front, i, sid), SessionEvents(After(front), e, sid));
    }
  }

  lemma NoEventsBefore(s: State, e: Event, sid: Sid)
    requires Inv(s) && Enabled(s, e) && sid !in s.sessions
    ensures SessionEvents(s, e, sid) == []
    ensures sid in Apply(s, e).sessions ==> Apply(s, e).sessions[sid] == S.INIT
  {
    if e.WatchFire? || e.CloseEnter? {
      assert Concerns(s.threads[e.t], s.threads[e.t].sid);
    }
  }

  /** All a session has gone through is a run from the start state of module Session. */
  lemma {:induction false} SessionRunsFromStart(es: seq<Event>, sid: Sid)
    requires IsRun(es)
    ensures sid !in After(es).sessions ==> EventsFrom(es, 0, sid) == []
    ensures sid in After(es).sessions ==>
              S.IsRun(S.INIT, EventsFrom(es, 0, sid)) && S.After(S.INIT, EventsFrom(es, 0, sid)) == After(es).sessions[sid]
  {
    if es == [] {
    } else {
      var front, e := es[..|es|-1], es[|es|-1];
      SessionRunsFromStart(front, sid);
      EveryRunKeepsInv(front);
      if sid in After(front).sessions {
        StepProjects(After(front), e, sid);
        RunSnoc(S.INIT, EventsFrom(front, 0, sid), SessionEvents(After(front), e, sid));
      } else {
        NoEventsBefore(After(front), e, sid);
      }
    }
  }

  /** However Disconnect and the watcher race, a session's teardown runs once and in order. */
  lemma TeardownOrderInEveryRun(es: seq<Event>, sid: Sid)
    requires IsRun(es) && sid in After(es).sessions
    ensures S.Milestones(EventsFrom(es, 0, sid)) == S.ORDER[..S.Passed(After(es).sessions[sid].body)]
  {
    SessionRunsFromStart(es, sid);
    S.TeardownOrder(EventsFrom(es, 0, sid));
  }

  /** Once a session's device is closed, all it ever opened is closed, in every state of every run. */
  lemma NothingOpenBehindTheDevice(es: seq<Event>, sid: Sid)
    requires IsRun(es) && sid in After(es).sessions && S.DeviceClose in EventsFrom(es, 0, sid)
    ensures After(es).sessions[sid].made == After(es).sessions[sid].shut
  {
    var own := EventsFrom(es, 0, sid);
    SessionRunsFromStart(es, sid);
    var i :| 0 <= i < |own| && own[i] == S.DeviceClose;
    S.DeviceOutlivesSockets(own, i);
    EveryRunKeepsInv(es);
    S.DrainedMeansAllShut(After(es).sessions[sid]);
  }

  /**
   A session that refuses dials ends: from there on it has only a bounded number of steps in any run of the
   controller, and once it owes none its `closed` channel is closed and so is every socket.
   */
  lemma RetiredSessionEnds(es: seq<Event>, i: nat, sid: Sid)
    requires IsRun(es) && i <= |es| && sid in At(es, i).sessions && At(es, i).sessions[sid].sh.closing
    ensures S.Inv(At(es, i).sessions[sid])
    ensures S.ProgressCount(EventsFrom(es, i, sid)) <= S.Budget(At(es, i).sessions[sid])
    ensures sid in After(es).sessions
    ensures (forall e :: S.Owed(e) ==> !S.Enabled(After(es).sessions[sid], e)) ==>
              After(es).sessions[sid].body == S.Over && After(es).sessions[sid].made == After(es).sessions[sid].shut
  {
    AtKeepsInv(es, i);
    SessionRuns(es, i, sid);
    S.TeardownTerminates(At(es, i).sessions[sid], EventsFrom(es, i, sid));
  }

  // ------------------------------------------------------------------ a dead data path is noticed

  predicate OnWatch(pc: Pc, sid: Sid) {
    pc == Spawning(sid) || pc == Watching(sid) || pc == WatchFired(sid)
  }

  /** The current session has a watcher, or a goroutine about to start one. */
  ghost predicate Watched(s: State) {
    s.ctl.session.Some? ==> exists t :: t in s.threads && OnWatch(s.threads[t], s.ctl.session.value)
  }

  lemma StaysOnWatch(s: State, e: Event, t: Thread, sid: Sid)
    requires Enabled(s, e) && t in s.threads && OnWatch(s.threads[t], sid) && !IsOver(s, sid)
    requires s.ctl.session == Some(sid) && Apply(s, e).ctl.session == Some(sid)
    ensures exists u :: u in Apply(s, e).threads && OnWatch(Apply(s, e).threads[u], sid)
  {
    var u := if e.WatchSpawn? && e.t == t then e.w else t;
    assert OnWatch(Apply(s, e).threads[u], sid);
  }

  lemma WatchedStep(s: State, e: Event)
    requires OneConnect(s) && CurrentIsLive(s) && Watched(s) && Enabled(s, e)
    ensures Watched(Apply(s, e))
  {
    var s' := Apply(s, e);
    if e.ConnectPublish? && s.threads[e.t].result.Some? {
      assert OnWatch(s'.threads[e.t], s.threads[e.t].result.value);
    } else if s'.ctl.session.Some? {
      var t :| t in s.threads && OnWatch(s.threads[t], s.ctl.session.value);
      StaysOnWatch(s, e, t, s.ctl.session.value);
    }
  }

  lemma {:induction false} AlwaysWatched(es: seq<Event>)
    requires IsRun(es)
    ensures Watched(After(es))
  {
    if es == [] {
    } else {
      AlwaysWatched(es[..|es|-1]);
      EveryRunKeepsInv(es[..|es|-1]);
      WatchedStep(After(es[..|es|-1]), es[|es|-1]);
    }
  }

  ghost predicate Fired(s: State, sid: Sid) {
    exists t :: t in s.threads && s.threads[t] == WatchFired(sid)
  }

  lemma FiredStep(s: State, e: Event, sid: Sid)
    requires Enabled(s, e) && Apply(s, e).ctl.session == Some(sid)
    requires (s.ctl.session == Some(sid) && Fired(s, sid)) || SessionEvents(s, e, sid) == [S.TakeError]
    ensures Fired(Apply(s, e), sid)
  {
    if SessionEvents(s, e, sid) == [S.TakeError] {
      assert e.WatchFire? && Apply(s, e).threads[e.t] == WatchFired(sid);
    } else {
      var t :| t in s.threads && s.threads[t] == WatchFired(sid);
      assert Apply(s, e).threads[t] == WatchFired(sid);
    }
  }

  /** An unpublished session has no watcher that could have taken an error. */
  lemma {:induction false} NothingTakenBefore(es: seq<Event>, sid: Sid)
    requires IsRun(es) && sid !in After(es).published
    ensures S.TakeError !in EventsFrom(es, 0, sid)
  {
    if es == [] {
    } else {
      var front, e := es[..|es|-1], es[|es|-1];
      NothingTakenBefore(front, sid);
      EveryRunKeepsInv(front);
      if e.WatchFire? {
        assert Concerns(After(front).threads[e.t], After(front).threads[e.t].sid);
      }
    }
  }

  /** While the session is current, whoever took its error has not yet acted on it. */
  lemma {:induction false} TakenMeansFired(es: seq<Event>, sid: Sid)
    requires IsRun(es) && After(es).ctl.session == Some(sid) && S.TakeError in EventsFrom(es, 0, sid)
    ensures Fired(After(es), sid)
  {
    if es == [] {
    } else {
      var front, e := es[..|es|-1], es[|es|-1];
      EveryRunKeepsInv(front);
      if S.TakeError in SessionEvents(After(front), e, sid) {
        FiredStep(After(front), e, sid);
      } else if After(front).ctl.session == Some(sid) {
        TakenMeansFired(front, sid);
        FiredStep(After(front), e, sid);
      } else {
        NothingTakenBefore(front, sid);
      }
    }
  }

  /** Goroutine `t` is about to retire session `sid`, and its next step is enabled. */
  ghost predicate Notices(s: State, t: Thread, sid: Sid) {
    t in s.threads &&
    (|| s.threads[t] == Spawning(sid)
     || (s.threads[t] == Watching(sid) && Enabled(s, WatchFire(t)))
     || (s.threads[t] == WatchFired(sid) && Enabled(s, WatchClear(t))))
  }

  lemma WaitingErrorIsNoticed(s: State, sid: Sid)
    requires Watched(s) && s.ctl.session == Some(sid) && sid in s.sessions && s.sessions[sid].slot
    ensures exists t :: Notices(s, t, sid)
  {
    var t :| t in s.threads && OnWatch(s.threads[t], sid);
    assert Notices(s, t, sid);
  }

  lemma TakenErrorIsNoticed(s: State, sid: Sid)
    requires Fired(s, sid)
    ensures exists t :: Notices(s, t, sid)
  {
    var t :| t in s.threads && s.threads[t] == WatchFired(sid);
    assert Notices(s, t, sid);
  }

  lemma CurrentIsOpen(s: State, sid: Sid)
    requires Inv(s) && s.ctl.session == Some(sid)
    ensures sid in s.sessions && !s.sessions[sid].sh.closing
  {
    assert sid in s.sessions && S.Inv(s.sessions[sid]);
  }

  /**
   Once a bridge worker of the current session has reported an error, some goroutine is about to retire the
   session: its watcher is yet to be started, can receive the error, or has received it.
   */
  lemma DeadPathIsNoticed(es: seq<Event>, sid: Sid, w: nat, sent: bool)
    requires IsRun(es) && After(es).ctl.session == Some(sid) && S.WorkerReport(w, sent) in EventsFrom(es, 0, sid)
    ensures exists t :: Notices(After(es), t, sid)
  {
    EveryRunKeepsInv(es);
    CurrentIsOpen(After(es), sid);
    SessionRunsFromStart(es, sid);
    S.FirstErrorIsDelivered(EventsFrom(es, 0, sid), w, sent);
    if S.TakeError in EventsFrom(es, 0, sid) {
      TakenMeansFired(es, sid);
      TakenErrorIsNoticed(After(es), sid);
    } else {
      AlwaysWatched(es);
      WaitingErrorIsNoticed(After(es), sid);
    }
  }

  // ------------------------------------------------------------------ the error that is reported

  /** What the last event that has anything to say about it makes the recorded error. */
  ghost function ErrorAfter(es: seq<Event>): LastError
    requires IsRun(es)
  {
    if es == [] then Clear
    else
      var front, e := es[..|es|-1], es[|es|-1];
      var s := After(front);
      match e
      case ConnectEnter(_) => Clear
      case DisconnectTake(_) => Clear
      case ConnectPublish(t) => if s.threads[t] == ConnectReturned(None) then ConnectFailed else ErrorAfter(front)
      case WatchClear(t) =>
        if s.ctl.session.Some? && s.threads[t] == WatchFired(s.ctl.session.value) then PathStopped(s.ctl.session.value)
        else ErrorAfter(front)
      case _ => ErrorAfter(front)
  }

  /**
   In every interleaving the recorded error is read off the events: a failed handshake and a lost data path are
   recorded until the next Connect or Disconnect, and nothing else touches it.
   */
  lemma {:induction false} LastErrorIs(es: seq<Event>)
    requires IsRun(es)
    ensures After(es).ctl.lastError == ErrorAfter(es)
  {
    if es == [] {
    } else {
      LastErrorIs(es[..|es|-1]);
    }
  }
}
