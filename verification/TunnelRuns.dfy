/**
 The server's view of the tunnel and the controller's. The server model lets the tunnel die in any gap and refuses a
 connect beside a live session; here the concurrent controller is shown to behave just so towards serial callers,
 which carries the failover theorems over to it.
 */
module TunnelRuns {
  import opened Prelude
  import opened Nodes
  import opened Server
  import opened Tunnel
  import C = Controller
  import R = ControllerRuns
  import G = Classify
  import Pool = ProbePool
  import opened Failover

  // ------------------------------------------------------------------ the controller's trace

  /** The node of the current session; `nodeOf` says which node a session was opened for. */
  function LiveNode(s: C.State, nodeOf: C.Sid -> string): Option<string> {
    if s.ctl.session.Some? then Some(nodeOf(s.ctl.session.value)) else None
  }

  /** What an event of the controller means to the users of the tunnel. */
  function HappeningOf(s: C.State, e: C.Event, nodeOf: C.Sid -> string): seq<Happening>
    requires C.Enabled(s, e)
  {
    match e
    case ConnectRefused(_) => [Refused]
    case ConnectPublish(t) =>
      if s.threads[t].result.Some? then [Up(nodeOf(s.threads[t].result.value))] else [DialFailed]
    case DisconnectTake(_) => [Down]
    case WatchClear(t) => if s.ctl.session == Some(s.threads[t].sid) then [Died] else []
    case _ => []
  }

  ghost function TraceOf(es: seq<C.Event>, nodeOf: C.Sid -> string): seq<Happening>
    requires C.IsRun(es)
  {
    if es == [] then []
    else
      var front := es[..|es|-1];
      TraceOf(front, nodeOf) + HappeningOf(C.After(front), es[|es|-1], nodeOf)
  }

  /** No caller is turned away because another one's Connect is still in flight. */
  ghost predicate Serial(es: seq<C.Event>)
    requires C.IsRun(es)
  {
    forall i :: 0 <= i < |es| && es[i].ConnectRefused? ==> !R.At(es, i).ctl.connecting
  }

  lemma StepRefines(s: C.State, e: C.Event, nodeOf: C.Sid -> string)
    requires C.OneConnect(s) && C.Enabled(s, e) && (e.ConnectRefused? ==> !s.ctl.connecting)
    ensures var hs := HappeningOf(s, e, nodeOf);
            if hs == [] then LiveNode(C.Apply(s, e), nodeOf) == LiveNode(s, nodeOf)
            else |hs| == 1 && Legal(LiveNode(s, nodeOf), hs[0])
                 && LiveNode(C.Apply(s, e), nodeOf) == Effect(LiveNode(s, nodeOf), hs[0])
  {
    if e.ConnectPublish? {
      assert C.Reserving(s.threads[e.t]);
    }
  }

  lemma SerialFront(es: seq<C.Event>)
    requires C.IsRun(es) && es != [] && Serial(es)
    ensures Serial(es[..|es|-1]) && (es[|es|-1].ConnectRefused? ==> !C.After(es[..|es|-1]).ctl.connecting)
  {
    var front := es[..|es|-1];
    forall i | 0 <= i < |front| && front[i].ConnectRefused? ensures !R.At(front, i).ctl.connecting {
      assert es[i].ConnectRefused? && R.At(es, i) == R.At(front, i);
    }
    assert R.At(es, |es| - 1) == R.At(front, |front|);
  }

  /**
   In every interleaving with serial callers, what the controller does to its users is a legal trace, and the
   current session is the one that trace leaves live.
   */
  lemma {:induction false} ControllerRefinesTunnel(es: seq<C.Event>, nodeOf: C.Sid -> string)
    requires C.IsRun(es) && Serial(es)
    ensures LegalTrace(TraceOf(es, nodeOf)) && LiveAfter(TraceOf(es, nodeOf)) == LiveNode(C.After(es), nodeOf)
  {
    if es == [] {
    } else {
      var front, e := es[..|es|-1], es[|es|-1];
      SerialFront(es);
      ControllerRefinesTunnel(front, nodeOf);
      C.EveryRunKeepsInv(front);
      StepRefines(C.After(front), e, nodeOf);
      var hs := HappeningOf(C.After(front), e, nodeOf);
      if hs == [] {
        assert TraceOf(front, nodeOf) + hs == TraceOf(front, nodeOf);
      } else {
        assert hs == [hs[0]];
        TraceSnoc(TraceOf(front, nodeOf), hs[0]);
      }
    }
  }

  // ------------------------------------------------------------------ the server's trace

  /** What happened to the tunnel is legal and explains the session the server believes live. */
  ghost predicate Logged(st: State) {
    LegalTrace(st.trace) && LiveAfter(st.trace) == st.tunnel
  }

  lemma HappenLogged(st: State, h: Happening)
    requires Logged(st) && Legal(st.tunnel, h)
    ensures Logged(Happen(st, h))
  {
    TraceSnoc(st.trace, h);
  }

  lemma PassLogged(st: State, g: Gap)
    requires Logged(st)
    ensures Logged(Pass(st, g))
  {
    if g.dies && st.tunnel.Some? {
      HappenLogged(st.(clock := st.clock + g.elapsed), Died);
    }
  }

  lemma CandidateLogged(cfg: Config, st: State, node: Node, a: Attempt)
    requires Logged(st)
    ensures Logged(ConnectCandidate(cfg, st, node, a).0)
  {
    PassLogged(st, a.dialing);
    var dialed := Pass(st, a.dialing);
    if dialed.tunnel.Some? {
      HappenLogged(dialed, Refused);
      PassLogged(Happen(dialed, Refused), a.after);
    } else if !a.connects {
      HappenLogged(dialed, DialFailed);
      PassLogged(Happen(dialed, DialFailed), a.after);
    } else {
      HappenLogged(dialed, Up(node.id));
      PassLogged(Happen(dialed, Up(node.id)), a.settling);
      var up := Pass(Happen(dialed, Up(node.id)), a.settling);
      UpLogged(cfg, up, node, a);
    }
  }

  /** The second half of an attempt, from a session that came up. */
  lemma UpLogged(cfg: Config, up: State, node: Node, a: Attempt)
    requires Logged(up)
    ensures Logged(Pass(Show(up, Connected, node.id), a.after))
    ensures var checked := Pass(Show(up, Verifying, node.id), a.verifying);
            && Logged(Pass(Happen(checked, Down), a.after)) && Logged(Pass(Show(checked, Connected, node.id), a.after))
  {
    PassLogged(Show(up, Connected, node.id), a.after);
    PassLogged(Show(up, Verifying, node.id), a.verifying);
    var checked := Pass(Show(up, Verifying, node.id), a.verifying);
    HappenLogged(checked, Down);
    PassLogged(Happen(checked, Down), a.after);
    PassLogged(Show(checked, Connected, node.id), a.after);
  }

  lemma {:induction false} LoopLogged(
    cfg: Config, st: State, candidates: seq<Node>, i: nat, script: Script, recovering: bool)
    requires i <= |candidates| && Logged(st)
    ensures Logged(TryFrom(cfg, st, candidates, i, script, recovering).0)
    decreases |candidates| - i
  {
    if i == |candidates| {
    } else {
      var shown := Show(st, AttemptPhase(recovering, i), candidates[i].id);
      CandidateLogged(cfg, shown, candidates[i], script(i));
      var (tried, ok) := ConnectCandidate(cfg, shown, candidates[i], script(i));
      if !ok {
        LoopLogged(cfg, CooldownNode(cfg, tried, candidates[i].id, script(i).error), candidates, i + 1, script, recovering);
      }
    }
  }

  lemma TryBestLogged(cfg: Config, st: State, requestedId: string, maxAttempts: int, script: Script)
    requires Logged(st)
    ensures Logged(TryBest(cfg, st, requestedId, maxAttempts, script))
  {
    LoopLogged(cfg, Offering(st, requestedId, maxAttempts), Listed(st, requestedId, maxAttempts), 0, script, false);
  }

  lemma RecoverLogged(cfg: Config, st: State, cancelled: bool, deciding: Gap, script: Script)
    requires Logged(st)
    ensures Logged(Recover(cfg, st, cancelled, deciding, script))
  {
    if NeedsRecovery(st) && !cancelled {
      var cooled := if st.snapshot.active != "" then CooldownNode(cfg, st, st.snapshot.active, LOST_NOTE) else st;
      PassLogged(cooled, deciding);
      var later := Pass(cooled, deciding);
      LoopLogged(cfg, Offering(later, "", cfg.maxAttempts), Listed(later, "", cfg.maxAttempts), 0, script, true);
    }
  }

  lemma RefreshLogged(st: State, fetch: Fetch, fetching: Gap, after: Gap)
    requires Logged(st)
    ensures Logged(Refresh(st, fetch, fetching, after))
  {
    var waited := Pass(Show(st, FetchingNodes, ""), fetching);
    PassLogged(Show(st, FetchingNodes, ""), fetching);
    var shown := waited.(snapshot := MaintenanceSnapshot(st.snapshot, waited.tunnel));
    PassLogged(if fetch.Err? then shown else shown.(nodes := PreserveCooldowns(fetch.value, st.nodes, waited.clock)), after);
  }

  lemma MaintainLogged(st: State, result: seq<Node>, working: Gap, after: Gap)
    requires Logged(st)
    ensures Logged(Maintain(st, result, working, after))
  {
    var waited := Pass(Show(st, ProbingNodes, ""), working);
    PassLogged(Show(st, ProbingNodes, ""), working);
    PassLogged(waited.(nodes := result, snapshot := MaintenanceSnapshot(st.snapshot, waited.tunnel)), after);
  }

  lemma ConnectLogged(cfg: Config, st: State, requestedId: string, deciding: Gap, script: Script)
    requires Logged(st)
    ensures Logged(ConnectAction(cfg, st, requestedId, deciding, script))
  {
    PassLogged(st.(snapshot := MaintenanceSnapshot(st.snapshot, st.tunnel)), deciding);
    PassLogged(st, deciding);
    var limit := if requestedId == "" && cfg.failoverEnabled then cfg.maxAttempts else 1;
    TryBestLogged(cfg, Pass(st, deciding), requestedId, limit, script);
  }

  lemma AutoLogged(cfg: Config, st: State, action: Action)
    requires Logged(st) && action.AutoConnect?
    ensures Logged(AutoConnectAction(cfg, st, action.fetch, action.fetching, action.reply, action.dials,
                                     action.probing, action.deciding, action.script))
  {
    var waited := Pass(Show(st, FetchingNodes, ""), action.fetching);
    PassLogged(Show(st, FetchingNodes, ""), action.fetching);
    if action.fetch.Ok? {
      var probed := Pass(Show(waited, ProbingNodes, ""), action.probing);
      PassLogged(Show(waited, ProbingNodes, ""), action.probing);
      var nodes := AutoNodes(cfg, st.nodes, action.fetch.value, action.reply, action.dials, probed.clock);
      PassLogged(probed.(nodes := nodes, snapshot := INITIAL), action.deciding);
      TryBestLogged(cfg, Pass(probed.(nodes := nodes, snapshot := INITIAL), action.deciding), "",
                    if cfg.maxAttempts <= 0 then 1 else cfg.maxAttempts, action.script);
    }
  }

  lemma VerifyLogged(st: State, verdict: Verdict, verifying: Gap, after: Gap)
    requires Logged(st)
    ensures Logged(VerifyAction(st, verdict, verifying, after))
  {
    PassLogged(st, verifying);
    PassLogged(Show(Pass(st, verifying), if verdict == Passed then Connected else Error, st.snapshot.active), after);
  }

  lemma HealthLogged(
    cfg: Config, st: State, verdict: Verdict, reachable: bool, checking: Gap, cancelled: bool,
    deciding: Gap, script: Script)
    requires Logged(st)
    ensures Logged(Health(cfg, st, verdict, reachable, checking, cancelled, deciding, script))
  {
    PassLogged(st, checking);
    var checked := Checked(cfg, st, verdict, reachable, checking);
    assert Logged(checked);
    HappenLogged(checked, Down);
    RecoverLogged(cfg, Happen(checked, Down), cancelled, deciding, script);
  }

  lemma PerformLogged(cfg: Config, before: State, action: Action)
    requires Logged(before)
    ensures Logged(Perform(cfg, before, action))
  {
    PassLogged(before, action.before);
    ActLogged(cfg, Pass(before, action.before), action);
  }

  lemma ActLogged(cfg: Config, st: State, action: Action)
    requires Logged(st)
    ensures Logged(Act(cfg, st, action))
  {
    match action
    case RefreshNodes(_, fetch, fetching, after) => RefreshLogged(st, fetch, fetching, after);
    case ClassifyNodes(_, reply, asking, after) => MaintainLogged(st, G.Classified(st.nodes, reply), asking, after);
    case ProbeNodes(_, dials, probing, after) => MaintainLogged(st, Pool.Probed(Batch(st.nodes, dials)), probing, after);
    case Connect(_, requestedId, deciding, script) => ConnectLogged(cfg, st, requestedId, deciding, script);
    case AutoConnect(_, _, _, _, _, _, _, _) => AutoLogged(cfg, st, action);
    case VerifyExit(_, verdict, verifying, after) => VerifyLogged(st, verdict, verifying, after);
    case Disconnect(_, after) =>
      HappenLogged(st, Down);
      PassLogged(Happen(st, Down).(snapshot := INITIAL), after);
    case TransportTick(_, cancelled, deciding, script) =>
      RecoverLogged(cfg, st.(failures := 0), cancelled, deciding, script);
    case HealthTick(_, verdict, reachable, checking, cancelled, deciding, script) =>
      HealthLogged(cfg, st, verdict, reachable, checking, cancelled, deciding, script);
  }

  /** In every run of the server, what it lets happen to the tunnel is legal and explains the session it counts on. */
  lemma {:induction false} RunLogged(cfg: Config, nodes: seq<Node>, clock: int, actions: seq<Action>)
    ensures Logged(Run(cfg, Start(nodes, clock), actions))
  {
    if actions == [] {
    } else {
      RunLogged(cfg, nodes, clock, actions[..|actions|-1]);
      PerformLogged(cfg, Run(cfg, Start(nodes, clock), actions[..|actions|-1]), actions[|actions|-1]);
    }
  }

  // ------------------------------------------------------------------ together

  /** Controller run `es` is what goes on below the server run: the same happenings in the same order. */
  ghost predicate Underlies(
    es: seq<C.Event>, nodeOf: C.Sid -> string, cfg: Config, nodes: seq<Node>, clock: int, actions: seq<Action>)
  {
    C.IsRun(es) && Serial(es) && TraceOf(es, nodeOf) == Run(cfg, Start(nodes, clock), actions).trace
  }

  /**
   Over the concurrent controller, whatever its goroutines do: the session the server counts on is the current one,
   and a nonempty active node in the snapshot beside a current session is the node of that session.
   */
  lemma SnapshotNamesCurrentSession(
    es: seq<C.Event>, nodeOf: C.Sid -> string, cfg: Config, nodes: seq<Node>, clock: int, actions: seq<Action>)
    requires Underlies(es, nodeOf, cfg, nodes, clock, actions)
    ensures var st, s := Run(cfg, Start(nodes, clock), actions), C.After(es);
            && st.tunnel == LiveNode(s, nodeOf)
            && (s.ctl.session.Some? && st.snapshot.active != "" ==> nodeOf(s.ctl.session.value) == st.snapshot.active)
  {
    ControllerRefinesTunnel(es, nodeOf);
    RunLogged(cfg, nodes, clock, actions);
    SnapshotNamesLiveSession(cfg, nodes, clock, actions);
  }
}
