/**
 The tunnel controller (`OpenVPNController`): Connect, Disconnect and one watcher per session race on
 `connecting`, `session` and `lastError`, while every session created so far lives its own life as
 described in module Session.
 */
module Controller {
  import opened Prelude
  import S = Session

  type Sid = nat
  type Thread = nat

  datatype LastError = Clear | ConnectFailed | PathStopped(sid: Sid)

  /** The fields protected by `mu`. */
  datatype Ctl = Ctl(connecting: bool, session: Option<Sid>, lastError: LastError)

  predicate CanConnect(c: Ctl) {
    c.session.None? && !c.connecting
  }

  function Reserve(c: Ctl): Ctl {
    c.(connecting := true, lastError := Clear)
  }

  function Settle(c: Ctl, result: Option<Sid>): Ctl {
    if result.Some? then c.(connecting := false, session := result)
    else c.(connecting := false, lastError := ConnectFailed)
  }

  function ClearIfCurrent(c: Ctl, sid: Sid): Ctl {
    if c.session == Some(sid) then c.(session := None, lastError := PathStopped(sid)) else c
  }

  function Take(c: Ctl): Ctl {
    c.(session := None, lastError := Clear)
  }

  /** The controller object: one method per critical section, proved against the functions above. */
  class OpenVPNController {
    var connecting: bool
    var session: Option<Sid>
    var lastError: LastError

    ghost function Locked(): Ctl
      reads this
    {
      Ctl(connecting, session, lastError)
    }

    constructor ()
      ensures Locked() == Ctl(false, None, Clear)
    {
      connecting, session, lastError := false, None, Clear;
    }

    method BeginConnect() returns (reserved: bool)
      modifies this
      ensures reserved == CanConnect(old(Locked()))
      ensures Locked() == if reserved then Reserve(old(Locked())) else old(Locked())
    {
      if session.Some? {
        return false;
      }
      if connecting {
        return false;
      }
      connecting := true;
      lastError := Clear;
      return true;
    }

    method FinishConnect(result: Option<Sid>)
      modifies this
      ensures Locked() == Settle(old(Locked()), result)
    {
      connecting := false;
      if result.None? {
        lastError := ConnectFailed;
        return;
      }
      session := result;
    }

    method DropFromWatch(sid: Sid)
      modifies this
      ensures Locked() == ClearIfCurrent(old(Locked()), sid)
    {
      if session == Some(sid) {
        session := None;
        lastError := PathStopped(sid);
      }
    }

    method TakeSession() returns (taken: Option<Sid>)
      modifies this
      ensures taken == old(session)
      ensures Locked() == Take(old(Locked()))
    {
      taken := session;
      session := None;
      lastError := Clear;
    }
  }

  /** Where a goroutine running controller code stands. */
  datatype Pc =
    | Connecting                        // inside connect, the lock free
    | ConnectReturned(result: Option<Sid>)
    | Spawning(sid: Sid)                // session published, watcher not yet started
    | Watching(sid: Sid)
    | WatchFired(sid: Sid)              // received an error from `done`
    | MustClose(sid: Sid)               // committed to session.close
    | InClose(sid: Sid)
    | Ended

  datatype State = State(
    ctl: Ctl,
    threads: map<Thread, Pc>,
    sessions: map<Sid, S.State>,
    published: set<Sid>)

  const INIT := State(Ctl(false, None, Clear), map[], map[], {})

  datatype Event =
    | ConnectEnter(t: Thread)
    | ConnectRefused(t: Thread)
    | ConnectCompletes(t: Thread, result: Option<Sid>)
    | ConnectPublish(t: Thread)
    | WatchSpawn(t: Thread, w: Thread)
    | WatchFire(t: Thread)
    | WatchClear(t: Thread)
    | WatchQuit(t: Thread)
    | DisconnectTake(t: Thread)
    | CloseEnter(t: Thread)
    | CloseReturn(t: Thread)
    | SessionStep(sid: Sid, e: S.Event)

  /** Session events that are no step of a controller goroutine; dials start on published sessions only. */
  predicate Internal(s: State, sid: Sid, e: S.Event) {
    && !e.CloseCall? && !e.TakeError?
    && (e.DialAdmit? || e.DialRefuse? ==> sid in s.published)
  }

  predicate SessionCan(s: State, sid: Sid, e: S.Event) {
    sid in s.sessions && S.Enabled(s.sessions[sid], e)
  }

  predicate IsOver(s: State, sid: Sid) {
    sid in s.sessions && s.sessions[sid].body == S.Over
  }

  predicate Enabled(s: State, e: Event) {
    match e
    case ConnectEnter(t) => t !in s.threads && CanConnect(s.ctl)
    case ConnectRefused(t) => t !in s.threads && !CanConnect(s.ctl)
    case ConnectCompletes(t, r) => t in s.threads && s.threads[t].Connecting? && (r.Some? ==> r.value !in s.sessions)
    case ConnectPublish(t) => t in s.threads && s.threads[t].ConnectReturned?
    case WatchSpawn(t, w) => t in s.threads && s.threads[t].Spawning? && w !in s.threads
    case WatchFire(t) => t in s.threads && s.threads[t].Watching? && SessionCan(s, s.threads[t].sid, S.TakeError)
    case WatchClear(t) => t in s.threads && s.threads[t].WatchFired?
    case WatchQuit(t) => t in s.threads && s.threads[t].Watching? && IsOver(s, s.threads[t].sid)
    case DisconnectTake(t) => t !in s.threads
    case CloseEnter(t) => t in s.threads && s.threads[t].MustClose? && SessionCan(s, s.threads[t].sid, S.CloseCall)
    case CloseReturn(t) => t in s.threads && s.threads[t].InClose? && IsOver(s, s.threads[t].sid)
    case SessionStep(sid, e) => Internal(s, sid, e) && SessionCan(s, sid, e)
  }

  function Move(s: State, t: Thread, pc: Pc): State {
    s.(threads := s.threads[t := pc])
  }

  function StepSession(s: State, sid: Sid, e: S.Event): State
    requires SessionCan(s, sid, e)
  {
    s.(sessions := s.sessions[sid := S.Apply(s.sessions[sid], e)])
  }

  function Apply(s: State, e: Event): State
    requires Enabled(s, e)
  {
    match e
    case ConnectEnter(t) => Move(s, t, Connecting).(ctl := Reserve(s.ctl))
    case ConnectRefused(t) => Move(s, t, Ended)
    case ConnectCompletes(t, r) =>
      Move(s, t, ConnectReturned(r)).(sessions := if r.Some? then s.sessions[r.value := S.INIT] else s.sessions)
    case ConnectPublish(t) =>
      var r := s.threads[t].result;
      Move(s, t, if r.Some? then Spawning(r.value) else Ended)
        .(ctl := Settle(s.ctl, r), published := if r.Some? then s.published + {r.value} else s.published)
    case WatchSpawn(t, w) => Move(Move(s, t, Ended), w, Watching(s.threads[t].sid))
    case WatchFire(t) => StepSession(Move(s, t, WatchFired(s.threads[t].sid)), s.threads[t].sid, S.TakeError)
    case WatchClear(t) =>
      var sid := s.threads[t].sid;
      Move(s, t, MustClose(sid)).(ctl := ClearIfCurrent(s.ctl, sid))
    case WatchQuit(t) => Move(s, t, Ended)
    case DisconnectTake(t) =>
      Move(s, t, if s.ctl.session.Some? then MustClose(s.ctl.session.value) else Ended).(ctl := Take(s.ctl))
    case CloseEnter(t) => StepSession(Move(s, t, InClose(s.threads[t].sid)), s.threads[t].sid, S.CloseCall)
    case CloseReturn(t) => Move(s, t, Ended)
    case SessionStep(sid, e) => StepSession(s, sid, e)
  }

  predicate IsRun(es: seq<Event>)
    decreases |es|, 0
  {
    es == [] || (IsRun(es[..|es|-1]) && Enabled(After(es[..|es|-1]), es[|es|-1]))
  }

  function After(es: seq<Event>): State
    requires IsRun(es)
    decreases |es|, 1
  {
    if es == [] then INIT else Apply(After(es[..|es|-1]), es[|es|-1])
  }

  // ------------------------------------------------------------------ invariants

  predicate Reserving(pc: Pc) {
    pc.Connecting? || pc.ConnectReturned?
  }

  /** `connecting` is held by exactly one goroutine, and only while there is no session. */
  ghost predicate OneConnect(s: State) {
    && (s.ctl.connecting ==> s.ctl.session.None? && exists t :: t in s.threads && Reserving(s.threads[t]))
    && (forall t :: t in s.threads && Reserving(s.threads[t]) ==> s.ctl.connecting)
    && (forall t, u :: t in s.threads && u in s.threads && Reserving(s.threads[t]) && Reserving(s.threads[u]) ==> t == u)
  }

  /** A controller that is connected or connecting carries no error of an earlier session. */
  ghost predicate CleanError(s: State) {
    s.ctl.connecting || s.ctl.session.Some? ==> s.ctl.lastError == Clear
  }

  predicate Concerns(pc: Pc, sid: Sid) {
    match pc
    case Spawning(x) => x == sid
    case Watching(x) => x == sid
    case WatchFired(x) => x == sid
    case MustClose(x) => x == sid
    case InClose(x) => x == sid
    case _ => false
  }

  /** A session is in its creator's hands until it is published; only then do other goroutines refer to it. */
  ghost predicate Known(s: State) {
    && s.published <= s.sessions.Keys
    && (s.ctl.session.Some? ==> s.ctl.session.value in s.published)
    && (forall t, sid :: t in s.threads && s.threads[t] == ConnectReturned(Some(sid)) ==>
          sid in s.sessions && sid !in s.published)
  }

  ghost predicate Referenced(s: State) {
    forall t, sid :: t in s.threads && Concerns(s.threads[t], sid) ==> sid in s.published
  }

  /** No session is dropped between its creation and its publication. */
  ghost predicate NoneLost(s: State) {
    forall sid :: sid in s.sessions && sid !in s.published ==>
      exists t :: t in s.threads && s.threads[t] == ConnectReturned(Some(sid))
  }

  ghost predicate Committed(s: State, sid: Sid) {
    exists t :: t in s.threads && s.threads[t] == MustClose(sid)
  }

  /** Every published session is current, being closed, closed, or about to be closed by some goroutine. */
  ghost predicate NoneAbandoned(s: State) {
    forall sid :: sid in s.published && sid in s.sessions && s.ctl.session != Some(sid) ==>
      s.sessions[sid].body != S.Idle || Committed(s, sid)
  }

  /** Nobody closes the current session. */
  ghost predicate CurrentIsLive(s: State) {
    && (forall sid :: s.ctl.session == Some(sid) && sid in s.sessions ==>
          s.sessions[sid].body == S.Idle && !Committed(s, sid))
    && (forall sid :: sid in s.sessions && sid !in s.published ==> s.sessions[sid].body == S.Idle)
  }

  ghost predicate SessionsOk(s: State) {
    forall sid :: sid in s.sessions ==> S.Inv(s.sessions[sid])
  }

  ghost predicate Inv(s: State) {
    && OneConnect(s) && CleanError(s) && Known(s) && Referenced(s) && NoneLost(s) && NoneAbandoned(s)
    && CurrentIsLive(s) && SessionsOk(s)
  }

  lemma OneConnectStep(s: State, e: Event)
    requires OneConnect(s) && CleanError(s) && Enabled(s, e)
    ensures OneConnect(Apply(s, e)) && CleanError(Apply(s, e))
  {
    var s' := Apply(s, e);
    if s'.ctl.connecting {
      if e.ConnectEnter? {
        assert Reserving(s'.threads[e.t]);
      } else {
        var t :| t in s.threads && Reserving(s.threads[t]);
        assert t in s'.threads && Reserving(s'.threads[t]);
      }
    }
  }

  lemma KnownStep(s: State, e: Event)
    requires OneConnect(s) && Known(s) && Enabled(s, e)
    ensures Known(Apply(s, e))
  {
  }

  lemma ReferencedStep(s: State, e: Event)
    requires Known(s) && Referenced(s) && Enabled(s, e)
    ensures Referenced(Apply(s, e))
  {
  }

  lemma NoneLostStep(s: State, e: Event)
    requires Known(s) && NoneLost(s) && Enabled(s, e)
    ensures NoneLost(Apply(s, e))
  {
    var s' := Apply(s, e);
    forall sid | sid in s'.sessions && sid !in s'.published
      ensures exists t :: t in s'.threads && s'.threads[t] == ConnectReturned(Some(sid))
    {
      if sid in s.sessions {
        var t :| t in s.threads && s.threads[t] == ConnectReturned(Some(sid));
        assert s'.threads[t] == ConnectReturned(Some(sid));
      } else {
        assert s'.threads[e.t] == ConnectReturned(Some(sid));
      }
    }
  }

  /** What a controller event does to the sessions: at most one of them takes one step of its own. */
  lemma SessionsFrame(s: State, e: Event, sid: Sid)
    requires SessionsOk(s) && Enabled(s, e) && sid in s.sessions
    ensures sid in Apply(s, e).sessions
    ensures Apply(s, e).sessions[sid].body == S.Idle <==>
              s.sessions[sid].body == S.Idle && !(e.CloseEnter? && s.threads[e.t] == MustClose(sid))
    ensures S.Inv(Apply(s, e).sessions[sid])
  {
    if e.SessionStep? && e.sid == sid {
      S.BodyStarts(s.sessions[sid], e.e);
      S.InvStep(s.sessions[sid], e.e);
    } else if e.CloseEnter? && s.threads[e.t].sid == sid {
      S.BodyStarts(s.sessions[sid], S.CloseCall);
      S.InvStep(s.sessions[sid], S.CloseCall);
    } else if e.WatchFire? && s.threads[e.t].sid == sid {
      S.BodyStarts(s.sessions[sid], S.TakeError);
      S.InvStep(s.sessions[sid], S.TakeError);
    }
  }

  /** Whoever drops the current session goes on to close it. */
  lemma DroppedIsCommitted(s: State, e: Event, sid: Sid)
    requires OneConnect(s) && Enabled(s, e) && s.ctl.session == Some(sid) && Apply(s, e).ctl.session != Some(sid)
    ensures Committed(Apply(s, e), sid)
  {
    assert e.WatchClear? || e.DisconnectTake?;
    assert Apply(s, e).threads[e.t] == MustClose(sid);
  }

  /** A thread committed to closing a session stays so until it does. */
  lemma StaysCommitted(s: State, e: Event, sid: Sid)
    requires Committed(s, sid) && Enabled(s, e) && !(e.CloseEnter? && s.threads[e.t] == MustClose(sid))
    ensures Committed(Apply(s, e), sid)
  {
    var t :| t in s.threads && s.threads[t] == MustClose(sid);
    assert Apply(s, e).threads[t] == MustClose(sid);
  }

  lemma NotAbandoned(s: State, e: Event, sid: Sid)
    requires Inv(s) && Enabled(s, e) && Apply(s, e).ctl.session != Some(sid)
    requires sid in Apply(s, e).published && sid in Apply(s, e).sessions && Apply(s, e).sessions[sid].body == S.Idle
    ensures Committed(Apply(s, e), sid)
  {
    if s.ctl.session == Some(sid) {
      DroppedIsCommitted(s, e, sid);
    } else {
      assert sid in s.published && sid in s.sessions;
      SessionsFrame(s, e, sid);
      StaysCommitted(s, e, sid);
    }
  }

  lemma NoneAbandonedStep(s: State, e: Event)
    requires Inv(s) && Enabled(s, e)
    ensures NoneAbandoned(Apply(s, e))
  {
    var s' := Apply(s, e);
    forall sid | sid in s'.published && sid in s'.sessions && s'.ctl.session != Some(sid) && s'.sessions[sid].body == S.Idle
      ensures Committed(s', sid)
    {
      NotAbandoned(s, e, sid);
    }
  }

  lemma NotCommitted(s: State, e: Event, sid: Sid)
    requires Inv(s) && Enabled(s, e) && !Committed(s, sid) && Apply(s, e).ctl.session == Some(sid)
    ensures !Committed(Apply(s, e), sid)
  {
  }

  /** A session that is current after a step was live before it. */
  lemma NextIsLive(s: State, e: Event, sid: Sid)
    requires Known(s) && Referenced(s) && CurrentIsLive(s) && Enabled(s, e) && Apply(s, e).ctl.session == Some(sid)
    ensures sid in s.sessions && s.sessions[sid].body == S.Idle && !Committed(s, sid)
  {
  }

  lemma CurrentStaysLive(s: State, e: Event, sid: Sid)
    requires Inv(s) && Enabled(s, e) && Apply(s, e).ctl.session == Some(sid) && sid in Apply(s, e).sessions
    ensures Apply(s, e).sessions[sid].body == S.Idle && !Committed(Apply(s, e), sid)
  {
    NextIsLive(s, e, sid);
    SessionsFrame(s, e, sid);
    NotCommitted(s, e, sid);
  }

  lemma CurrentIsLiveStep(s: State, e: Event)
    requires Inv(s) && Enabled(s, e)
    ensures CurrentIsLive(Apply(s, e))
  {
    var s' := Apply(s, e);
    forall sid | s'.ctl.session == Some(sid) && sid in s'.sessions
      ensures s'.sessions[sid].body == S.Idle && !Committed(s', sid)
    {
      CurrentStaysLive(s, e, sid);
    }
    forall sid | sid in s'.sessions && sid !in s'.published
      ensures s'.sessions[sid].body == S.Idle
    {
      if sid in s.sessions {
        SessionsFrame(s, e, sid);
      }
    }
  }

  lemma SessionsOkStep(s: State, e: Event)
    requires Inv(s) && Enabled(s, e)
    ensures SessionsOk(Apply(s, e))
  {
    forall sid | sid in Apply(s, e).sessions ensures S.Inv(Apply(s, e).sessions[sid]) {
      if sid in s.sessions {
        SessionsFrame(s, e, sid);
      } else {
        S.EveryRunKeepsInv([]);
      }
    }
  }

  lemma InvStep(s: State, e: Event)
    requires Inv(s) && Enabled(s, e)
    ensures Inv(Apply(s, e))
  {
    OneConnectStep(s, e);
    KnownStep(s, e);
    ReferencedStep(s, e);
    NoneLostStep(s, e);
    NoneAbandonedStep(s, e);
    CurrentIsLiveStep(s, e);
    SessionsOkStep(s, e);
  }

  /** Every interleaving of Connect, Disconnect, watchers and sessions keeps all of the above. */
  lemma {:induction false} EveryRunKeepsInv(es: seq<Event>)
    requires IsRun(es)
    ensures Inv(After(es))
  {
    if es == [] {
    } else {
      EveryRunKeepsInv(es[..|es|-1]);
      InvStep(After(es[..|es|-1]), es[|es|-1]);
    }
  }

  // ------------------------------------------------------------------ consequences for every run

  /** Connect never overwrites a session: when it publishes there is none, and no error is pending. */
  lemma PublishFindsNoSession(es: seq<Event>, t: Thread)
    requires IsRun(es) && Enabled(After(es), ConnectPublish(t))
    ensures After(es).ctl.session.None? && After(es).ctl.connecting && After(es).ctl.lastError == Clear
  {
    EveryRunKeepsInv(es);
  }

  /** A session stops being current only by Disconnect or by its own watcher, whoever else runs. */
  lemma OnlyItsWatcherClears(es: seq<Event>, e: Event, sid: Sid)
    requires IsRun(es) && Enabled(After(es), e)
    requires After(es).ctl.session == Some(sid) && Apply(After(es), e).ctl.session != Some(sid)
    ensures e.DisconnectTake? || (e.WatchClear? && After(es).threads[e.t] == WatchFired(sid))
    ensures Apply(After(es), e).ctl.session.None? && Committed(Apply(After(es), e), sid)
  {
    EveryRunKeepsInv(es);
    var s' := Apply(After(es), e);
    if e.DisconnectTake? || e.WatchClear? {
      assert s'.threads[e.t] == MustClose(sid);
    }
  }

  /** A "data path stopped" error is only ever recorded for the session that was current until that step. */
  lemma ErrorNamesTheLostSession(es: seq<Event>, e: Event, sid: Sid)
    requires IsRun(es) && Enabled(After(es), e)
    requires Apply(After(es), e).ctl.lastError == PathStopped(sid) && After(es).ctl.lastError != PathStopped(sid)
    ensures After(es).ctl.session == Some(sid) && Apply(After(es), e).ctl.session.None?
  {
  }

  /** The current session accepts dials. */
  lemma CurrentSessionAdmitsDials(es: seq<Event>, sid: Sid, d: S.Dialer)
    requires IsRun(es) && After(es).ctl.session == Some(sid)
    requires sid in After(es).sessions && d !in After(es).sessions[sid].dials
    ensures Enabled(After(es), SessionStep(sid, S.DialAdmit(d)))
  {
    EveryRunKeepsInv(es);
  }

  /**
   A published session that is no longer current is on its way out: until its `closed` channel is closed
   there is a step, by a goroutine committed to closing it or owed by the session itself, that can be taken.
   */
  lemma RetiredSessionNeverStuck(es: seq<Event>, sid: Sid)
    requires IsRun(es)
    requires sid in After(es).published && After(es).ctl.session != Some(sid) && !IsOver(After(es), sid)
    ensures exists e :: Enabled(After(es), e) &&
              ((e.CloseEnter? && After(es).threads[e.t] == MustClose(sid)) ||
               (e.SessionStep? && e.sid == sid && S.Owed(e.e)))
  {
    EveryRunKeepsInv(es);
    var s := After(es);
    if s.sessions[sid].body == S.Idle {
      var t :| t in s.threads && s.threads[t] == MustClose(sid);
      assert Enabled(s, CloseEnter(t));
    } else {
      var e := S.OwedEvent(s.sessions[sid]);
      assert Enabled(s, SessionStep(sid, e));
    }
  }
}
