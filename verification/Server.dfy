/**
 The server's exit management (`internal/web/server.go`): operator requests and monitor ticks, one after the
 other, on the node cache, the published snapshot and the tunnel.

 Whatever the outside world decides - fetch results, lookups, dial outcomes, verdicts, the time that passes,
 and the tunnel dying between any two sub-steps - is part of the action, so a run is a sequence of actions
 and every theorem quantifies over all of them.
 */
module Server {
  import opened Prelude
  import opened Nodes
  import opened Failover
  import C = Classify
  import M = Monitor
  import P = Probe
  import Pool = ProbePool
  import T = Tunnel

  datatype Phase =
    | Idle | FetchingNodes | ProbingNodes | Connecting | Verifying | Connected | FailingOver | Error

  /** `active` is ActiveNodeID, empty for none. */
  datatype Snapshot = Snapshot(phase: Phase, active: string)

  const INITIAL := Snapshot(Idle, "")

  /** Stands for the reason text recorded on a lost exit. */
  const LOST_NOTE := "exit lost"

  datatype Config = Config(
    failoverEnabled: bool, maxAttempts: int, cooldown: int, failureThreshold: int,
    verifyEnabled: bool, classifierEnabled: bool)

  /** A candidate list that was computed, and when. */
  datatype Offer = Offer(at: int, ids: seq<string>)

  /**
   `tunnel` holds the node of the live session. `offers` records every candidate list ever computed and `trace`
   all that happened to the tunnel.
   */
  datatype State = State(
    nodes: seq<Node>, snapshot: Snapshot, tunnel: Option<string>, clock: int, failures: nat, offers: seq<Offer>,
    trace: seq<T.Happening>)

  /** The server after start-up: any restored nodes, an idle snapshot, no tunnel. */
  function Start(nodes: seq<Node>, clock: int): State {
    State(nodes, INITIAL, None, clock, 0, [], [])
  }

  /** Between two sub-steps time passes and the tunnel may die. */
  datatype Gap = Gap(elapsed: nat, dies: bool)

  const QUIET := Gap(0, false)

  datatype Verdict = Passed | Refuted | Failed

  /** One attempt: does the handshake succeed, what does verification say, and what happens in between. */
  datatype Attempt = Attempt(
    connects: bool, verdict: Verdict, error: string, dialing: Gap, settling: Gap, verifying: Gap, after: Gap)

  type Script = nat -> Attempt

  // ------------------------------------------------------------------ sub-steps

  function Happen(st: State, h: T.Happening): State {
    st.(tunnel := T.Effect(st.tunnel, h), trace := st.trace + [h])
  }

  function Pass(st: State, g: Gap): State {
    var later := st.(clock := st.clock + g.elapsed);
    if g.dies && st.tunnel.Some? then Happen(later, T.Died) else later
  }

  function Show(st: State, phase: Phase, active: string): State {
    st.(snapshot := Snapshot(phase, active))
  }

  function CooldownNode(cfg: Config, st: State, id: string, message: string): State {
    st.(nodes := MarkFailure(st.nodes, id, message, cfg.cooldown, st.clock))
  }

  function MaintenanceSnapshot(previous: Snapshot, tunnel: Option<string>): Snapshot {
    if tunnel.None? then INITIAL
    else Snapshot(Connected, if tunnel.value != "" then tunnel.value else previous.active)
  }

  /** The handshake succeeds, and so does verification where it is enabled. */
  predicate Works(cfg: Config, a: Attempt) {
    a.connects && (cfg.verifyEnabled ==> a.verdict == Passed)
  }

  /** connectCandidate; the tunnel refuses when it already has a session. */
  function ConnectCandidate(cfg: Config, st: State, node: Node, a: Attempt): (State, bool) {
    var dialed := Pass(st, a.dialing);
    if dialed.tunnel.Some? then (Pass(Happen(dialed, T.Refused), a.after), false)
    else if !a.connects then (Pass(Happen(dialed, T.DialFailed), a.after), false)
    else
      var up := Pass(Happen(dialed, T.Up(node.id)), a.settling);
      if cfg.verifyEnabled then
        var checked := Pass(Show(up, Verifying, node.id), a.verifying);
        if a.verdict != Passed then (Pass(Happen(checked, T.Down), a.after), false)
        else (Pass(Show(checked, Connected, node.id), a.after), true)
      else (Pass(Show(up, Connected, node.id), a.after), true)
  }

  function AttemptPhase(recovering: bool, attempt: nat): Phase {
    if recovering || attempt > 0 then FailingOver else Connecting
  }

  /** The candidate loop from candidate `i` on; the second result is the index that connected. */
  function TryFrom(cfg: Config, st: State, candidates: seq<Node>, i: nat, script: Script, recovering: bool)
    : (State, Option<nat>)
    requires i <= |candidates|
    decreases |candidates| - i
  {
    if i == |candidates| then (st, None)
    else
      var node := candidates[i];
      var (tried, ok) := ConnectCandidate(cfg, Show(st, AttemptPhase(recovering, i), node.id), node, script(i));
      if ok then (tried, Some(i))
      else TryFrom(cfg, CooldownNode(cfg, tried, node.id, script(i).error), candidates, i + 1, script, recovering)
  }

  /** The loop and the error snapshot when every candidate failed. */
  function TryAll(cfg: Config, st: State, candidates: seq<Node>, script: Script, recovering: bool): State {
    var (tried, result) := TryFrom(cfg, st, candidates, 0, script, recovering);
    if result.Some? then tried else Show(tried, Error, "")
  }

  function Listed(st: State, requestedId: string, maxAttempts: int): seq<Node> {
    Candidates(st.nodes, requestedId, maxAttempts, st.clock)
  }

  function Offering(st: State, requestedId: string, maxAttempts: int): State {
    st.(offers := st.offers + [Offer(st.clock, Ids(Listed(st, requestedId, maxAttempts)))])
  }

  /** Computes the candidates and, when there are any, tries them. */
  function TryBest(cfg: Config, st: State, requestedId: string, maxAttempts: int, script: Script): State {
    var candidates := Listed(st, requestedId, maxAttempts);
    var offered := Offering(st, requestedId, maxAttempts);
    if candidates == [] then offered else TryAll(cfg, offered, candidates, script, false)
  }

  /** Limit and sample count are immaterial to the result of a probe (ScheduleDoesNotMatter). */
  function Batch(nodes: seq<Node>, dials: nat -> seq<P.Dial>): (b: Pool.Batch)
    ensures b.nodes == nodes && |b.dials| == |nodes|
  {
    Pool.Batch(nodes, seq(|nodes|, dials), Pool.Limit(0), Pool.Samples(0))
  }

  // ------------------------------------------------------------------ actions

  type Fetch = Result<seq<Node>, ()>

  datatype Action =
    | RefreshNodes(before: Gap, fetch: Fetch, fetching: Gap, after: Gap)
    | ClassifyNodes(before: Gap, reply: Option<seq<C.Record>>, asking: Gap, after: Gap)
    | ProbeNodes(before: Gap, dials: nat -> seq<P.Dial>, probing: Gap, after: Gap)
    | Connect(before: Gap, requestedId: string, deciding: Gap, script: Script)
    | AutoConnect(before: Gap, fetch: Fetch, fetching: Gap, reply: Option<seq<C.Record>>,
                  dials: nat -> seq<P.Dial>, probing: Gap, deciding: Gap, script: Script)
    | VerifyExit(before: Gap, verdict: Verdict, verifying: Gap, after: Gap)
    | Disconnect(before: Gap, after: Gap)
    | TransportTick(before: Gap, cancelled: bool, deciding: Gap, script: Script)
    | HealthTick(before: Gap, verdict: Verdict, reachable: bool, checking: Gap, cancelled: bool,
                 deciding: Gap, script: Script)

  function Refresh(st: State, fetch: Fetch, fetching: Gap, after: Gap): State {
    var waited := Pass(Show(st, FetchingNodes, ""), fetching);
    var shown := waited.(snapshot := MaintenanceSnapshot(st.snapshot, waited.tunnel));
    Pass(if fetch.Err? then shown else shown.(nodes := PreserveCooldowns(fetch.value, st.nodes, waited.clock)), after)
  }

  /** The common course of the classify and probe handlers; `result` is what they make of the nodes. */
  function Maintain(st: State, result: seq<Node>, working: Gap, after: Gap): State {
    if st.nodes == [] then st
    else
      var waited := Pass(Show(st, ProbingNodes, ""), working);
      Pass(waited.(nodes := result, snapshot := MaintenanceSnapshot(st.snapshot, waited.tunnel)), after)
  }

  function ConnectAction(cfg: Config, st: State, requestedId: string, deciding: Gap, script: Script): State {
    if st.tunnel.Some? then Pass(st.(snapshot := MaintenanceSnapshot(st.snapshot, st.tunnel)), deciding)
    else if st.nodes == [] then st
    else
      var limit := if requestedId == "" && cfg.failoverEnabled then cfg.maxAttempts else 1;
      TryBest(cfg, Pass(st, deciding), requestedId, limit, script)
  }

  function PreparedNodes(cfg: Config, fetched: seq<Node>, reply: Option<seq<C.Record>>, dials: nat -> seq<P.Dial>): seq<Node> {
    var graded := if cfg.classifierEnabled then C.Classified(fetched, reply) else fetched;
    Pool.Probed(Batch(graded, dials))
  }

  /** The cache of an automatic connection: the prepared list with the cooldowns of the previous one. */
  function AutoNodes(
    cfg: Config, previous: seq<Node>, fetched: seq<Node>, reply: Option<seq<C.Record>>, dials: nat -> seq<P.Dial>,
    now: int): seq<Node>
  {
    PreserveCooldowns(PreparedNodes(cfg, fetched, reply, dials), previous, now)
  }

  /** autoConnectExit up to the end of its probe. */
  function AutoProbed(st: State, fetching: Gap, probing: Gap): State {
    Pass(Show(Pass(Show(st, FetchingNodes, ""), fetching), ProbingNodes, ""), probing)
  }

  /** autoConnectExit up to the point where it computes its candidates. */
  function AutoReady(
    cfg: Config, st: State, fetched: seq<Node>, fetching: Gap, reply: Option<seq<C.Record>>,
    dials: nat -> seq<P.Dial>, probing: Gap, deciding: Gap): State
  {
    var probed := AutoProbed(st, fetching, probing);
    var nodes := AutoNodes(cfg, st.nodes, fetched, reply, dials, probed.clock);
    Pass(probed.(nodes := nodes, snapshot := INITIAL), deciding)
  }

  function AutoConnectAction(
    cfg: Config, st: State, fetch: Fetch, fetching: Gap, reply: Option<seq<C.Record>>,
    dials: nat -> seq<P.Dial>, probing: Gap, deciding: Gap, script: Script): State
  {
    if fetch.Err? then Show(Pass(Show(st, FetchingNodes, ""), fetching), Error, "")
    else
      TryBest(cfg, AutoReady(cfg, st, fetch.value, fetching, reply, dials, probing, deciding),
              "", if cfg.maxAttempts <= 0 then 1 else cfg.maxAttempts, script)
  }

  predicate HasNode(nodes: seq<Node>, id: string) {
    id != "" && exists i :: 0 <= i < |nodes| && nodes[i].id == id
  }

  function VerifyAction(st: State, verdict: Verdict, verifying: Gap, after: Gap): State {
    if !HasNode(st.nodes, st.snapshot.active) then st
    else
      var waited := Pass(st, verifying);
      if verdict == Failed then waited
      else Pass(Show(waited, if verdict == Passed then Connected else Error, st.snapshot.active), after)
  }

  predicate NeedsRecovery(st: State) {
    st.snapshot.phase == Connected && st.tunnel.None?
  }

  /** recoverExit: cool the lost node down, then try the others. */
  function Recover(cfg: Config, st: State, cancelled: bool, deciding: Gap, script: Script): State {
    if !NeedsRecovery(st) || cancelled then st
    else
      var cooled := if st.snapshot.active != "" then CooldownNode(cfg, st, st.snapshot.active, LOST_NOTE) else st;
      var later := Pass(cooled, deciding);
      TryAll(cfg, Offering(later, "", cfg.maxAttempts), Listed(later, "", cfg.maxAttempts), script, true)
  }

  predicate IsRunning(st: State) {
    st.snapshot.phase == Connected && st.tunnel.Some?
  }

  /** A missing active node fails; a verification error falls back on plain reachability. */
  predicate Healthy(st: State, verdict: Verdict, reachable: bool) {
    HasNode(st.nodes, st.snapshot.active) && (verdict == Passed || (verdict == Failed && reachable))
  }

  /** What the monitor sees at a health tick. */
  function HealthOf(cfg: Config, st: State, verdict: Verdict, reachable: bool): M.Tick {
    var evaluated := cfg.verifyEnabled && IsRunning(st);
    M.Health(evaluated, evaluated && Healthy(st, verdict, reachable))
  }

  /** The check and the counter. */
  function Checked(cfg: Config, st: State, verdict: Verdict, reachable: bool, checking: Gap): State {
    var tick := HealthOf(cfg, st, verdict, reachable);
    var waited := if tick.evaluated then Pass(st, checking) else st;
    waited.(failures := M.NextFailures(st.failures, M.Threshold(cfg.failureThreshold), tick))
  }

  predicate GivesUp(cfg: Config, st: State, verdict: Verdict, reachable: bool) {
    M.React(st.failures, M.Threshold(cfg.failureThreshold), HealthOf(cfg, st, verdict, reachable)).DisconnectAndRecover?
  }

  function Health(
    cfg: Config, st: State, verdict: Verdict, reachable: bool, checking: Gap, cancelled: bool,
    deciding: Gap, script: Script): State
  {
    var checked := Checked(cfg, st, verdict, reachable, checking);
    if GivesUp(cfg, st, verdict, reachable) then Recover(cfg, Happen(checked, T.Down), cancelled, deciding, script)
    else checked
  }

  function Transport(cfg: Config, st: State, cancelled: bool, deciding: Gap, script: Script): State {
    var tick := M.Transport(NeedsRecovery(st));
    var counted := st.(failures := M.NextFailures(st.failures, M.Threshold(cfg.failureThreshold), tick));
    if M.React(st.failures, M.Threshold(cfg.failureThreshold), tick).Recover? then
      Recover(cfg, counted, cancelled, deciding, script)
    else counted
  }

  /** The handler of an action. */
  function Act(cfg: Config, st: State, action: Action): State {
    match action
    case RefreshNodes(_, fetch, fetching, after) => Refresh(st, fetch, fetching, after)
    case ClassifyNodes(_, reply, asking, after) => Maintain(st, C.Classified(st.nodes, reply), asking, after)
    case ProbeNodes(_, dials, probing, after) => Maintain(st, Pool.Probed(Batch(st.nodes, dials)), probing, after)
    case Connect(_, requestedId, deciding, script) => ConnectAction(cfg, st, requestedId, deciding, script)
    case AutoConnect(_, fetch, fetching, reply, dials, probing, deciding, script) =>
      AutoConnectAction(cfg, st, fetch, fetching, reply, dials, probing, deciding, script)
    case VerifyExit(_, verdict, verifying, after) => VerifyAction(st, verdict, verifying, after)
    case Disconnect(_, after) => Pass(Happen(st, T.Down).(snapshot := INITIAL), after)
    case TransportTick(_, cancelled, deciding, script) => Transport(cfg, st, cancelled, deciding, script)
    case HealthTick(_, verdict, reachable, checking, cancelled, deciding, script) =>
      Health(cfg, st, verdict, reachable, checking, cancelled, deciding, script)
  }

  function Perform(cfg: Config, before: State, action: Action): State {
    Act(cfg, Pass(before, action.before), action)
  }

  function Run(cfg: Config, st: State, actions: seq<Action>): State {
    if actions == [] then st else Perform(cfg, Run(cfg, st, actions[..|actions|-1]), actions[|actions|-1])
  }

  lemma RunTwo(cfg: Config, st: State, first: Action, second: Action)
    ensures Run(cfg, st, [first, second]) == Perform(cfg, Perform(cfg, st, first), second)
  {
    assert [first, second][..1] == [first] && [first][..0] == [];
    assert Run(cfg, st, [first]) == Perform(cfg, Run(cfg, st, []), first);
  }

  // ------------------------------------------------------------------ the snapshot names the live session

  /** A live session and a nonempty active node: they are the same node. */
  predicate Matches(st: State) {
    st.tunnel.Some? && st.snapshot.active != "" ==> st.snapshot.active == st.tunnel.value
  }

  lemma ConnectCandidateMatches(cfg: Config, st: State, node: Node, a: Attempt)
    ensures var (r, ok) := ConnectCandidate(cfg, st, node, a);
            && (st.tunnel.None? ==> ok == (a.connects && (cfg.verifyEnabled ==> a.verdict == Passed)))
            && (ok ==> r.snapshot == Snapshot(Connected, node.id) && (r.tunnel == Some(node.id) || r.tunnel.None?))
            && (!ok && st.tunnel.None? ==> r.tunnel.None?)
            && (r.nodes == st.nodes && r.offers == st.offers && r.failures == st.failures && r.clock >= st.clock)
  {
  }

  lemma {:induction false} TryFromMatches(
    cfg: Config, st: State, candidates: seq<Node>, i: nat, script: Script, recovering: bool)
    requires i <= |candidates|
    ensures var (r, result) := TryFrom(cfg, st, candidates, i, script, recovering);
            && (result.Some? ==> Matches(r) && r.snapshot.phase == Connected)
            && (result.None? && st.tunnel.None? ==> r.tunnel.None?)
    decreases |candidates| - i
  {
    if i == |candidates| {
    } else {
      var shown := Show(st, AttemptPhase(recovering, i), candidates[i].id);
      ConnectCandidateMatches(cfg, shown, candidates[i], script(i));
      var (tried, ok) := ConnectCandidate(cfg, shown, candidates[i], script(i));
      if !ok {
        TryFromMatches(cfg, CooldownNode(cfg, tried, candidates[i].id, script(i).error), candidates, i + 1, script, recovering);
      }
    }
  }

  lemma TryAllMatches(cfg: Config, st: State, candidates: seq<Node>, script: Script, recovering: bool)
    ensures Matches(TryAll(cfg, st, candidates, script, recovering))
  {
    TryFromMatches(cfg, st, candidates, 0, script, recovering);
  }

  lemma TryBestMatches(cfg: Config, st: State, requestedId: string, maxAttempts: int, script: Script)
    requires Matches(st)
    ensures Matches(TryBest(cfg, st, requestedId, maxAttempts, script))
  {
    TryAllMatches(cfg, Offering(st, requestedId, maxAttempts), Listed(st, requestedId, maxAttempts), script, false);
  }

  lemma RecoverMatches(cfg: Config, st: State, cancelled: bool, deciding: Gap, script: Script)
    requires Matches(st)
    ensures Matches(Recover(cfg, st, cancelled, deciding, script))
  {
    if NeedsRecovery(st) && !cancelled {
      var cooled := if st.snapshot.active != "" then CooldownNode(cfg, st, st.snapshot.active, LOST_NOTE) else st;
      var later := Pass(cooled, deciding);
      TryAllMatches(cfg, Offering(later, "", cfg.maxAttempts), Listed(later, "", cfg.maxAttempts), script, true);
    }
  }

  lemma PerformMatches(cfg: Config, before: State, action: Action)
    requires Matches(before)
    ensures Matches(Perform(cfg, before, action))
  {
    ActMatches(cfg, Pass(before, action.before), action);
  }

  lemma RefreshMatches(st: State, fetch: Fetch, fetching: Gap, after: Gap)
    requires Matches(st)
    ensures Matches(Refresh(st, fetch, fetching, after))
  {
  }

  lemma MaintainMatches(st: State, result: seq<Node>, working: Gap, after: Gap)
    requires Matches(st)
    ensures Matches(Maintain(st, result, working, after))
  {
  }

  lemma VerifyMatches(st: State, verdict: Verdict, verifying: Gap, after: Gap)
    requires Matches(st)
    ensures Matches(VerifyAction(st, verdict, verifying, after))
  {
  }

  lemma ConnectMatches(cfg: Config, st: State, requestedId: string, deciding: Gap, script: Script)
    requires Matches(st)
    ensures Matches(ConnectAction(cfg, st, requestedId, deciding, script))
  {
    var limit := if requestedId == "" && cfg.failoverEnabled then cfg.maxAttempts else 1;
    TryBestMatches(cfg, Pass(st, deciding), requestedId, limit, script);
  }

  lemma AutoMatches(
    cfg: Config, st: State, fetch: Fetch, fetching: Gap, reply: Option<seq<C.Record>>, dials: nat -> seq<P.Dial>,
    probing: Gap, deciding: Gap, script: Script)
    requires Matches(st)
    ensures Matches(AutoConnectAction(cfg, st, fetch, fetching, reply, dials, probing, deciding, script))
  {
    if fetch.Ok? {
      TryBestMatches(cfg, AutoReady(cfg, st, fetch.value, fetching, reply, dials, probing, deciding),
                     "", if cfg.maxAttempts <= 0 then 1 else cfg.maxAttempts, script);
    }
  }

  lemma TransportMatches(cfg: Config, st: State, cancelled: bool, deciding: Gap, script: Script)
    requires Matches(st)
    ensures Matches(Transport(cfg, st, cancelled, deciding, script))
  {
    RecoverMatches(cfg, st.(failures := 0), cancelled, deciding, script);
  }

  lemma ActMatches(cfg: Config, st: State, action: Action)
    requires Matches(st)
    ensures Matches(Act(cfg, st, action))
  {
    match action
    case RefreshNodes(_, fetch, fetching, after) => RefreshMatches(st, fetch, fetching, after);
    case ClassifyNodes(_, reply, asking, after) => MaintainMatches(st, C.Classified(st.nodes, reply), asking, after);
    case ProbeNodes(_, dials, probing, after) => MaintainMatches(st, Pool.Probed(Batch(st.nodes, dials)), probing, after);
    case VerifyExit(_, verdict, verifying, after) => VerifyMatches(st, verdict, verifying, after);
    case Connect(_, requestedId, deciding, script) => ConnectMatches(cfg, st, requestedId, deciding, script);
    case AutoConnect(_, fetch, fetching, reply, dials, probing, deciding, script) =>
      AutoMatches(cfg, st, fetch, fetching, reply, dials, probing, deciding, script);
    case TransportTick(_, cancelled, deciding, script) =>
      TransportMatches(cfg, st, cancelled, deciding, script);
    case HealthTick(_, verdict, reachable, checking, cancelled, deciding, script) =>
      HealthMatches(cfg, st, verdict, reachable, checking, cancelled, deciding, script);
    case _ =>
  }

  lemma HealthMatches(
    cfg: Config, st: State, verdict: Verdict, reachable: bool, checking: Gap, cancelled: bool,
    deciding: Gap, script: Script)
    requires Matches(st)
    ensures Matches(Health(cfg, st, verdict, reachable, checking, cancelled, deciding, script))
  {
    RecoverMatches(cfg, Happen(Checked(cfg, st, verdict, reachable, checking), T.Down), cancelled, deciding, script);
  }

  /** At every action boundary of every run, whenever the tunnel dies: a live session is the one shown. */
  lemma {:induction false} SnapshotNamesLiveSession(cfg: Config, nodes: seq<Node>, clock: int, actions: seq<Action>)
    ensures Matches(Run(cfg, Start(nodes, clock), actions))
  {
    if actions == [] {
    } else {
      SnapshotNamesLiveSession(cfg, nodes, clock, actions[..|actions|-1]);
      PerformMatches(cfg, Run(cfg, Start(nodes, clock), actions[..|actions|-1]), actions[|actions|-1]);
    }
  }

  /** The gap in which a maintenance handler waits for the outside world. */
  function Working(action: Action): Gap
    requires action.RefreshNodes? || action.ClassifyNodes? || action.ProbeNodes?
  {
    match action
    case RefreshNodes(_, _, fetching, _) => fetching
    case ClassifyNodes(_, _, asking, _) => asking
    case ProbeNodes(_, _, probing, _) => probing
  }

  /**
   Refreshing, classifying and probing leave the exit alone: they end showing the session that outlived their
   work, or the idle snapshot if none did, and the tunnel is what its own death makes of it.
   */
  lemma MaintenanceFollowsTunnel(cfg: Config, before: State, action: Action)
    requires action.RefreshNodes? || ((action.ClassifyNodes? || action.ProbeNodes?) && before.nodes != [])
    ensures var r := Perform(cfg, before, action);
            var live := if action.before.dies || Working(action).dies then None else before.tunnel;
            && (live.None? ==> r.snapshot == INITIAL)
            && (live.Some? ==> r.snapshot.phase == Connected && (live.value != "" ==> r.snapshot.active == live.value))
            && r.tunnel == (if action.after.dies then None else live)
            && r.offers == before.offers && r.failures == before.failures
  {
  }

  // ------------------------------------------------------------------ what the node cache keeps

  /** What ranking relies on: distinct IDs and the classifier's scores. */
  ghost predicate GoodNodes(nodes: seq<Node>) {
    DistinctIds(nodes) && ScoresOk(nodes)
  }

  ghost predicate GoodFetch(fetch: Fetch) {
    fetch.Ok? ==> GoodNodes(fetch.value)
  }

  lemma SameIdsStayDistinct(a: seq<Node>, b: seq<Node>)
    requires Ids(a) == Ids(b) && DistinctIds(a)
    ensures DistinctIds(b)
  {
    assert forall i :: 0 <= i < |a| ==> a[i].id == Ids(a)[i] && b[i].id == Ids(b)[i];
  }

  lemma CooldownKeepsGood(cfg: Config, st: State, id: string, message: string)
    requires GoodNodes(st.nodes)
    ensures GoodNodes(CooldownNode(cfg, st, id, message).nodes)
  {
    MarkFailureEffect(st.nodes, id, message, cfg.cooldown, st.clock);
    SameIdsStayDistinct(st.nodes, CooldownNode(cfg, st, id, message).nodes);
  }

  lemma PreserveKeepsGood(nodes: seq<Node>, previous: seq<Node>, now: int)
    requires GoodNodes(nodes)
    ensures GoodNodes(PreserveCooldowns(nodes, previous, now))
  {
    SameIdsStayDistinct(nodes, PreserveCooldowns(nodes, previous, now));
  }

  lemma ClassifiedKeepsGood(nodes: seq<Node>, reply: Option<seq<C.Record>>)
    requires GoodNodes(nodes)
    ensures GoodNodes(C.Classified(nodes, reply))
  {
    C.ClassifiedKeeps(nodes, reply);
    SameIdsStayDistinct(nodes, C.Classified(nodes, reply));
  }

  lemma ProbedKeepsGood(nodes: seq<Node>, dials: nat -> seq<P.Dial>)
    requires GoodNodes(nodes)
    ensures GoodNodes(Pool.Probed(Batch(nodes, dials)))
  {
    Pool.ProbedKeeps(Batch(nodes, dials));
    SameIdsStayDistinct(nodes, Pool.Probed(Batch(nodes, dials)));
  }

  lemma {:induction false} TryFromKeepsGood(
    cfg: Config, st: State, candidates: seq<Node>, i: nat, script: Script, recovering: bool)
    requires i <= |candidates| && GoodNodes(st.nodes)
    ensures GoodNodes(TryFrom(cfg, st, candidates, i, script, recovering).0.nodes)
    decreases |candidates| - i
  {
    if i == |candidates| {
    } else {
      var shown := Show(st, AttemptPhase(recovering, i), candidates[i].id);
      ConnectCandidateMatches(cfg, shown, candidates[i], script(i));
      var (tried, ok) := ConnectCandidate(cfg, shown, candidates[i], script(i));
      if !ok {
        CooldownKeepsGood(cfg, tried, candidates[i].id, script(i).error);
        TryFromKeepsGood(cfg, CooldownNode(cfg, tried, candidates[i].id, script(i).error), candidates, i + 1, script, recovering);
      }
    }
  }

  lemma RecoverKeepsGood(cfg: Config, st: State, cancelled: bool, deciding: Gap, script: Script)
    requires GoodNodes(st.nodes)
    ensures GoodNodes(Recover(cfg, st, cancelled, deciding, script).nodes)
  {
    if NeedsRecovery(st) && !cancelled {
      CooldownKeepsGood(cfg, st, st.snapshot.active, LOST_NOTE);
      var cooled := if st.snapshot.active != "" then CooldownNode(cfg, st, st.snapshot.active, LOST_NOTE) else st;
      var later := Pass(cooled, deciding);
      TryFromKeepsGood(cfg, Offering(later, "", cfg.maxAttempts), Listed(later, "", cfg.maxAttempts), 0, script, true);
    }
  }

  lemma TryBestKeepsGood(cfg: Config, st: State, requestedId: string, maxAttempts: int, script: Script)
    requires GoodNodes(st.nodes)
    ensures GoodNodes(TryBest(cfg, st, requestedId, maxAttempts, script).nodes)
  {
    TryFromKeepsGood(cfg, Offering(st, requestedId, maxAttempts), Listed(st, requestedId, maxAttempts), 0, script, false);
  }

  lemma PreparedKeepsGood(cfg: Config, fetched: seq<Node>, reply: Option<seq<C.Record>>, dials: nat -> seq<P.Dial>)
    requires GoodNodes(fetched)
    ensures GoodNodes(PreparedNodes(cfg, fetched, reply, dials))
    ensures Ids(PreparedNodes(cfg, fetched, reply, dials)) == Ids(fetched)
  {
    ClassifiedKeepsGood(fetched, reply);
    C.ClassifiedKeeps(fetched, reply);
    var graded := if cfg.classifierEnabled then C.Classified(fetched, reply) else fetched;
    ProbedKeepsGood(graded, dials);
    Pool.ProbedKeeps(Batch(graded, dials));
  }

  lemma AutoReadyKeepsGood(
    cfg: Config, st: State, fetched: seq<Node>, fetching: Gap, reply: Option<seq<C.Record>>,
    dials: nat -> seq<P.Dial>, probing: Gap, deciding: Gap)
    requires GoodNodes(fetched)
    ensures GoodNodes(AutoReady(cfg, st, fetched, fetching, reply, dials, probing, deciding).nodes)
  {
    PreparedKeepsGood(cfg, fetched, reply, dials);
    var probed := AutoProbed(st, fetching, probing);
    PreserveKeepsGood(PreparedNodes(cfg, fetched, reply, dials), st.nodes, probed.clock);
  }

  ghost predicate GoodAction(action: Action) {
    match action
    case RefreshNodes(_, fetch, _, _) => GoodFetch(fetch)
    case AutoConnect(_, fetch, _, _, _, _, _, _) => GoodFetch(fetch)
    case _ => true
  }

  lemma PerformKeepsGood(cfg: Config, before: State, action: Action)
    requires GoodNodes(before.nodes) && GoodAction(action)
    ensures GoodNodes(Perform(cfg, before, action).nodes)
  {
    ActKeepsGood(cfg, Pass(before, action.before), action);
  }

  lemma ActKeepsGood(cfg: Config, st: State, action: Action)
    requires GoodNodes(st.nodes) && GoodAction(action)
    ensures GoodNodes(Act(cfg, st, action).nodes)
  {
    match action
    case RefreshNodes(_, fetch, fetching, after) =>
      if fetch.Ok? {
        PreserveKeepsGood(fetch.value, st.nodes, Pass(Show(st, FetchingNodes, ""), fetching).clock);
      }
    case ClassifyNodes(_, reply, _, _) => ClassifiedKeepsGood(st.nodes, reply);
    case ProbeNodes(_, dials, _, _) => ProbedKeepsGood(st.nodes, dials);
    case Connect(_, requestedId, deciding, script) =>
      var limit := if requestedId == "" && cfg.failoverEnabled then cfg.maxAttempts else 1;
      TryBestKeepsGood(cfg, Pass(st, deciding), requestedId, limit, script);
    case AutoConnect(_, fetch, fetching, reply, dials, probing, deciding, script) =>
      if fetch.Ok? {
        AutoReadyKeepsGood(cfg, st, fetch.value, fetching, reply, dials, probing, deciding);
        TryBestKeepsGood(cfg, AutoReady(cfg, st, fetch.value, fetching, reply, dials, probing, deciding),
                         "", if cfg.maxAttempts <= 0 then 1 else cfg.maxAttempts, script);
      }
    case TransportTick(_, cancelled, deciding, script) =>
      RecoverKeepsGood(cfg, st.(failures := 0), cancelled, deciding, script);
    case HealthTick(_, verdict, reachable, checking, cancelled, deciding, script) =>
      RecoverKeepsGood(cfg, Happen(Checked(cfg, st, verdict, reachable, checking), T.Down), cancelled, deciding, script);
    case _ =>
  }

  /** From fetched nodes on, every run keeps IDs distinct and purity scores within the classifier's discipline. */
  lemma {:induction false} RunsKeepGoodNodes(cfg: Config, st: State, actions: seq<Action>)
    requires GoodNodes(st.nodes) && forall i :: 0 <= i < |actions| ==> GoodAction(actions[i])
    ensures GoodNodes(Run(cfg, st, actions).nodes)
  {
    if actions == [] {
    } else {
      RunsKeepGoodNodes(cfg, st, actions[..|actions|-1]);
      PerformKeepsGood(cfg, Run(cfg, st, actions[..|actions|-1]), actions[|actions|-1]);
    }
  }

  /** In every state of such a run, comparing the ranks of two cached nodes is comparing (strict home, available, score). */
  lemma RankInEveryRun(cfg: Config, st: State, actions: seq<Action>, i: nat, j: nat)
    requires GoodNodes(st.nodes) && forall k :: 0 <= k < |actions| ==> GoodAction(actions[k])
    requires i < |Run(cfg, st, actions).nodes| && j < |Run(cfg, st, actions).nodes|
    ensures var a, b := Run(cfg, st, actions).nodes[i], Run(cfg, st, actions).nodes[j];
            NodeRank(a) > NodeRank(b) <==>
              if (a.grade == StrictHome) != (b.grade == StrictHome) then a.grade == StrictHome
              else if (a.status == Available) != (b.status == Available) then a.status == Available
              else a.purityScore > b.purityScore
  {
    RunsKeepGoodNodes(cfg, st, actions);
    RankIsLexicographic(Run(cfg, st, actions).nodes[i], Run(cfg, st, actions).nodes[j]);
  }
}
