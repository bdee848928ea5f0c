/**
 "An error snapshot means that the tunnel is idle" is not true of the server. This module says, for every action
 and for every run, exactly when an error is shown beside a live session.
 */
module ErrorSnapshots {
  import opened Prelude
  import opened Nodes
  import opened Failover
  import opened Server
  import T = Tunnel

  predicate ErrorBesideLive(st: State) {
    st.snapshot.phase == Error && st.tunnel.Some?
  }

  /** The tunnel outlives the attempts from `i` on, each of which it refuses. */
  predicate Endures(script: Script, i: nat, n: nat) {
    forall j: nat :: i <= j < n ==> !script(j).dialing.dies && !script(j).after.dies
  }

  // ------------------------------------------------------------------ the candidate loop

  /** Over a live tunnel the loop fails on every candidate, unless the tunnel dies on the way. */
  lemma {:induction false} LoopOverLive(
    cfg: Config, st: State, candidates: seq<Node>, i: nat, script: Script, recovering: bool)
    requires i <= |candidates| && st.tunnel.Some?
    ensures var (r, result) := TryFrom(cfg, st, candidates, i, script, recovering);
            if Endures(script, i, |candidates|) then result.None? && r.tunnel == st.tunnel
            else result.Some? || r.tunnel.None?
    decreases |candidates| - i
  {
    if i == |candidates| {
    } else {
      var shown := Show(st, AttemptPhase(recovering, i), candidates[i].id);
      var (tried, ok) := ConnectCandidate(cfg, shown, candidates[i], script(i));
      var next := CooldownNode(cfg, tried, candidates[i].id, script(i).error);
      if script(i).dialing.dies || script(i).after.dies {
        assert ok || next.tunnel.None?;
        assert !Endures(script, i, |candidates|);
        if !ok {
          TryFromMatches(cfg, next, candidates, i + 1, script, recovering);
          var (r, result) := TryFrom(cfg, next, candidates, i + 1, script, recovering);
          assert result.Some? || r.tunnel.None?;
        }
      } else {
        LoopOverLive(cfg, next, candidates, i + 1, script, recovering);
      }
    }
  }

  lemma LoopIff(cfg: Config, st: State, candidates: seq<Node>, script: Script, recovering: bool)
    ensures ErrorBesideLive(TryAll(cfg, st, candidates, script, recovering)) <==>
              st.tunnel.Some? && Endures(script, 0, |candidates|)
  {
    var (tried, result) := TryFrom(cfg, st, candidates, 0, script, recovering);
    TryFromMatches(cfg, st, candidates, 0, script, recovering);
    if st.tunnel.Some? {
      LoopOverLive(cfg, st, candidates, 0, script, recovering);
    } else {
      assert result.Some? || tried.tunnel.None?;
    }
  }

  lemma RecoverNever(cfg: Config, st: State, cancelled: bool, deciding: Gap, script: Script)
    requires st.tunnel.None?
    ensures !ErrorBesideLive(Recover(cfg, st, cancelled, deciding, script))
  {
    if NeedsRecovery(st) && !cancelled {
      var cooled := if st.snapshot.active != "" then CooldownNode(cfg, st, st.snapshot.active, LOST_NOTE) else st;
      var later := Pass(cooled, deciding);
      LoopIff(cfg, Offering(later, "", cfg.maxAttempts), Listed(later, "", cfg.maxAttempts), script, true);
    }
  }

  // ------------------------------------------------------------------ one action

  /** Automatic connection over a session that outlives all it does: the fetch fails, or there is a node to try. */
  predicate AutoRaises(cfg: Config, before: State, action: Action)
    requires action.AutoConnect?
  {
    && before.tunnel.Some? && !action.before.dies && !action.fetching.dies
    && (action.fetch.Err? ||
        (var list := AutoList(cfg, before, action);
         list != [] && !action.probing.dies && !action.deciding.dies && Endures(action.script, 0, |list|)))
  }

  function AutoList(cfg: Config, before: State, action: Action): seq<Node>
    requires action.AutoConnect? && action.fetch.Ok?
  {
    Listed(AutoReady(cfg, Pass(before, action.before), action.fetch.value, action.fetching, action.reply,
                     action.dials, action.probing, action.deciding), "", Positive(cfg.maxAttempts))
  }

  function Positive(maxAttempts: int): int {
    if maxAttempts <= 0 then 1 else maxAttempts
  }

  /** The operator's check finds the live exit of a cached node wanting, and the session goes on. */
  predicate VerifyRaises(before: State, action: Action)
    requires action.VerifyExit?
  {
    && action.verdict == Refuted && HasNode(before.nodes, before.snapshot.active)
    && before.tunnel.Some? && !action.before.dies && !action.verifying.dies && !action.after.dies
  }

  predicate Raises(cfg: Config, before: State, action: Action) {
    match action
    case AutoConnect(_, _, _, _, _, _, _, _) => AutoRaises(cfg, before, action)
    case VerifyExit(_, _, _, _) => VerifyRaises(before, action)
    case _ => false
  }

  /** The action touches neither an error snapshot nor, by its gaps, the session. */
  predicate LeavesAlone(before: State, action: Action) {
    !action.before.dies &&
    match action
    case ClassifyNodes(_, _, _, _) => before.nodes == []
    case ProbeNodes(_, _, _, _) => before.nodes == []
    case VerifyExit(_, verdict, verifying, _) =>
      !HasNode(before.nodes, before.snapshot.active) || (verdict == Failed && !verifying.dies)
    case TransportTick(_, _, _, _) => true
    case HealthTick(_, _, _, _, _, _, _) => true
    case _ => false
  }

  lemma TryBestIff(cfg: Config, st: State, requestedId: string, maxAttempts: int, script: Script)
    ensures ErrorBesideLive(TryBest(cfg, st, requestedId, maxAttempts, script)) ==
            if Listed(st, requestedId, maxAttempts) == [] then ErrorBesideLive(st)
            else st.tunnel.Some? && Endures(script, 0, |Listed(st, requestedId, maxAttempts)|)
  {
    LoopIff(cfg, Offering(st, requestedId, maxAttempts), Listed(st, requestedId, maxAttempts), script, false);
  }

  lemma ReadyIsLive(cfg: Config, before: State, action: Action)
    requires action.AutoConnect? && action.fetch.Ok?
    ensures var ready := AutoReady(cfg, Pass(before, action.before), action.fetch.value, action.fetching, action.reply,
                                   action.dials, action.probing, action.deciding);
            && ready.snapshot == INITIAL
            && ready.tunnel.Some? == (before.tunnel.Some? && !action.before.dies && !action.fetching.dies
                                      && !action.probing.dies && !action.deciding.dies)
  {
  }

  lemma AutoIff(cfg: Config, before: State, action: Action)
    requires action.AutoConnect?
    ensures ErrorBesideLive(Perform(cfg, before, action)) <==> AutoRaises(cfg, before, action)
  {
    if action.fetch.Ok? {
      var ready := AutoReady(cfg, Pass(before, action.before), action.fetch.value, action.fetching, action.reply,
                             action.dials, action.probing, action.deciding);
      ReadyIsLive(cfg, before, action);
      TryBestIff(cfg, ready, "", Positive(cfg.maxAttempts), action.script);
    }
  }

  lemma ConnectNever(cfg: Config, before: State, action: Action)
    requires action.Connect?
    ensures !ErrorBesideLive(Perform(cfg, before, action))
  {
    var ready := Pass(Pass(before, action.before), action.deciding);
    var limit := if action.requestedId == "" && cfg.failoverEnabled then cfg.maxAttempts else 1;
    LoopIff(cfg, Offering(ready, action.requestedId, limit), Listed(ready, action.requestedId, limit), action.script, false);
  }

  lemma TickIff(cfg: Config, before: State, action: Action)
    requires action.TransportTick? || action.HealthTick?
    ensures ErrorBesideLive(Perform(cfg, before, action)) <==> ErrorBesideLive(before) && !action.before.dies
  {
    var st := Pass(before, action.before);
    if action.TransportTick? {
      if NeedsRecovery(st) {
        RecoverNever(cfg, st.(failures := 0), action.cancelled, action.deciding, action.script);
      }
    } else if cfg.verifyEnabled && IsRunning(st) {
      var checked := Checked(cfg, st, action.verdict, action.reachable, action.checking);
      RecoverNever(cfg, Happen(checked, T.Down), action.cancelled, action.deciding, action.script);
    }
  }

  /** After one action an error stands beside a live session exactly when the action raised it or left it alone. */
  lemma ErrorBesideLiveIff(cfg: Config, before: State, action: Action)
    ensures ErrorBesideLive(Perform(cfg, before, action)) <==>
              Raises(cfg, before, action) || (ErrorBesideLive(before) && LeavesAlone(before, action))
  {
    match action
    case AutoConnect(_, _, _, _, _, _, _, _) => AutoIff(cfg, before, action);
    case Connect(_, _, _, _) => ConnectNever(cfg, before, action);
    case TransportTick(_, _, _, _) => TickIff(cfg, before, action);
    case HealthTick(_, _, _, _, _, _, _) => TickIff(cfg, before, action);
    case _ =>
  }

  // ------------------------------------------------------------------ runs

  /** Action `i` of the run raised the error and every later action left it alone. */
  ghost predicate RaisedAt(cfg: Config, st: State, actions: seq<Action>, i: int) {
    && 0 <= i < |actions| && Raises(cfg, Run(cfg, st, actions[..i]), actions[i])
    && forall j :: i < j < |actions| ==> LeavesAlone(Run(cfg, st, actions[..j]), actions[j])
  }

  lemma RaisedEarlier(cfg: Config, st: State, front: seq<Action>, last: Action, i: int)
    requires 0 <= i < |front|
    ensures RaisedAt(cfg, st, front + [last], i) <==>
              RaisedAt(cfg, st, front, i) && LeavesAlone(Run(cfg, st, front), last)
  {
    var all := front + [last];
    assert all[..|front|] == front;
    assert forall j :: 0 <= j < |front| ==> front[..j] == all[..j] && front[j] == all[j];
    if RaisedAt(cfg, st, all, i) {
      assert LeavesAlone(Run(cfg, st, all[..|front|]), all[|front|]);
    }
  }

  lemma RaisedLast(cfg: Config, st: State, front: seq<Action>, last: Action)
    ensures RaisedAt(cfg, st, front + [last], |front|) <==> Raises(cfg, Run(cfg, st, front), last)
  {
    assert (front + [last])[..|front|] == front;
  }

  /** Either the last action raised the error, or an earlier one did and the last left it alone. */
  lemma RaisedSplit(cfg: Config, st: State, front: seq<Action>, last: Action)
    ensures (exists i :: RaisedAt(cfg, st, front + [last], i)) <==>
              Raises(cfg, Run(cfg, st, front), last)
              || ((exists i :: RaisedAt(cfg, st, front, i)) && LeavesAlone(Run(cfg, st, front), last))
  {
    RaisedLast(cfg, st, front, last);
    if i :| RaisedAt(cfg, st, front + [last], i) {
      if i < |front| {
        RaisedEarlier(cfg, st, front, last, i);
      }
    }
    if i :| RaisedAt(cfg, st, front, i) && LeavesAlone(Run(cfg, st, front), last) {
      RaisedEarlier(cfg, st, front, last, i);
    }
  }

  /** In every run from start-up, an error stands beside a live session if and only if some action raised it. */
  lemma {:induction false} ErrorBesideLiveInRuns(cfg: Config, nodes: seq<Node>, clock: int, actions: seq<Action>)
    ensures ErrorBesideLive(Run(cfg, Start(nodes, clock), actions)) <==>
              exists i :: RaisedAt(cfg, Start(nodes, clock), actions, i)
  {
    if actions == [] {
    } else {
      var front, last := actions[..|actions|-1], actions[|actions|-1];
      assert actions == front + [last];
      ErrorBesideLiveInRuns(cfg, nodes, clock, front);
      ErrorBesideLiveIff(cfg, Run(cfg, Start(nodes, clock), front), last);
      RaisedSplit(cfg, Start(nodes, clock), front, last);
    }
  }

  // ------------------------------------------------------------------ it happens

  const WORKING := Attempt(true, Passed, "", QUIET, QUIET, QUIET, QUIET)

  function ConnectTo(id: string): Action {
    Connect(QUIET, id, QUIET, _ => WORKING)
  }

  function RefutingCheck(): Action {
    VerifyExit(QUIET, Refuted, QUIET, QUIET)
  }

  function FailingAutoConnect(): Action {
    AutoConnect(QUIET, Err(()), QUIET, None, _ => [], QUIET, QUIET, _ => WORKING)
  }

  lemma Connects(cfg: Config, n: Node, clock: int)
    requires Connectable(n, clock) && n.id != ""
    ensures var r := Perform(cfg, Start([n], clock), ConnectTo(n.id));
            r.tunnel == Some(n.id) && r.snapshot == Snapshot(Connected, n.id) && r.nodes == [n]
  {
    var st := Start([n], clock);
    assert Find([n], n.id, clock) == [n];
    assert Listed(st, n.id, 1) == [n];
  }

  /** From start-up with any connectable node, both ways of raising the error are two actions away. */
  lemma ErrorBesideLiveIsReachable(cfg: Config, n: Node, clock: int)
    requires Connectable(n, clock) && n.id != ""
    ensures ErrorBesideLive(Run(cfg, Start([n], clock), [ConnectTo(n.id), RefutingCheck()]))
    ensures ErrorBesideLive(Run(cfg, Start([n], clock), [ConnectTo(n.id), FailingAutoConnect()]))
  {
    Connects(cfg, n, clock);
    var up := Perform(cfg, Start([n], clock), ConnectTo(n.id));
    assert up.nodes[0].id == n.id;
    RunTwo(cfg, Start([n], clock), ConnectTo(n.id), RefutingCheck());
    ErrorBesideLiveIff(cfg, up, RefutingCheck());
    RunTwo(cfg, Start([n], clock), ConnectTo(n.id), FailingAutoConnect());
    ErrorBesideLiveIff(cfg, up, FailingAutoConnect());
  }
}
