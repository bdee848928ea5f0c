/**
 The server object: the handlers and the recovery loop as methods on the state they mutate. Each handler is the
 action of the same name, so what holds of every run holds of every sequence of calls, and each keeps `Valid`.
 */
module ServerObject {
  import opened Prelude
  import opened Nodes
  import F = Failover
  import S = Server
  import C = Classify
  import M = Monitor
  import P = Probe
  import Pool = ProbePool
  import T = Tunnel

  class AppServer {
    const cfg: S.Config
    var nodes: seq<Node>
    var snapshot: S.Snapshot
    var tunnel: Option<string>
    var clock: int
    var healthFailures: nat
    var offers: seq<S.Offer>
    ghost var trace: seq<T.Happening>

    ghost function State(): S.State
      reads this
    {
      S.State(nodes, snapshot, tunnel, clock, healthFailures, offers, trace)
    }

    /** A live session is the one shown; cached IDs are distinct and scores are the classifier's. */
    ghost predicate Valid()
      reads this
    {
      S.Matches(State()) && S.GoodNodes(nodes)
    }

    constructor (cfg: S.Config, saved: seq<Node>, now: int)
      ensures this.cfg == cfg && State() == S.Start(saved, now)
      ensures S.GoodNodes(saved) ==> Valid()
    {
      this.cfg := cfg;
      nodes, snapshot, tunnel, clock, healthFailures, offers := saved, S.INITIAL, None, now, 0, [];
      trace := [];
    }

    method Happen(h: T.Happening)
      modifies this
      ensures State() == S.Happen(old(State()), h)
    {
      tunnel := T.Effect(tunnel, h);
      trace := trace + [h];
    }

    /** Time passes and the tunnel may die. */
    method Elapse(g: S.Gap)
      modifies this
      ensures State() == S.Pass(old(State()), g)
    {
      clock := clock + g.elapsed;
      if g.dies && tunnel.Some? {
        Happen(T.Died);
      }
    }

    method CooldownNode(id: string, message: string)
      modifies this
      ensures State() == S.CooldownNode(cfg, old(State()), id, message)
    {
      nodes := F.MarkNodeFailure(nodes, id, message, cfg.cooldown, clock);
    }

    method ConnectCandidate(node: Node, a: S.Attempt) returns (ok: bool)
      modifies this
      ensures (State(), ok) == S.ConnectCandidate(cfg, old(State()), node, a)
    {
      Elapse(a.dialing);
      if tunnel.Some? || !a.connects {
        Happen(if tunnel.Some? then T.Refused else T.DialFailed);
        Elapse(a.after);
        return false;
      }
      Happen(T.Up(node.id));
      Elapse(a.settling);
      if cfg.verifyEnabled {
        snapshot := S.Snapshot(S.Verifying, node.id);
        Elapse(a.verifying);
        if a.verdict != S.Passed {
          Happen(T.Down);
          Elapse(a.after);
          return false;
        }
      }
      snapshot := S.Snapshot(S.Connected, node.id);
      Elapse(a.after);
      return true;
    }

    /** The candidate loop shared by connect, automatic connect and recovery. */
    method TryCandidates(candidates: seq<Node>, script: S.Script, recovering: bool)
      modifies this
      ensures State() == S.TryAll(cfg, old(State()), candidates, script, recovering)
    {
      for i := 0 to |candidates|
        invariant S.TryFrom(cfg, old(State()), candidates, 0, script, recovering)
                  == S.TryFrom(cfg, State(), candidates, i, script, recovering)
      {
        var node := candidates[i];
        snapshot := S.Snapshot(S.AttemptPhase(recovering, i), node.id);
        var ok := ConnectCandidate(node, script(i));
        if ok {
          return;
        }
        CooldownNode(node.id, script(i).error);
      }
      snapshot := S.Snapshot(S.Error, "");
    }

    method ListCandidates(requestedId: string, maxAttempts: int) returns (candidates: seq<Node>)
      modifies this
      ensures candidates == S.Listed(old(State()), requestedId, maxAttempts)
      ensures State() == S.Offering(old(State()), requestedId, maxAttempts)
    {
      candidates := F.ConnectionCandidates(nodes, requestedId, maxAttempts, clock);
      offers := offers + [S.Offer(clock, Ids(candidates))];
    }

    method TryBest(requestedId: string, maxAttempts: int, script: S.Script)
      modifies this
      ensures State() == S.TryBest(cfg, old(State()), requestedId, maxAttempts, script)
    {
      var candidates := ListCandidates(requestedId, maxAttempts);
      if |candidates| == 0 {
        return;
      }
      TryCandidates(candidates, script, false);
    }

    method RecoverExit(cancelled: bool, deciding: S.Gap, script: S.Script)
      requires Valid()
      modifies this
      ensures Valid() && State() == S.Recover(cfg, old(State()), cancelled, deciding, script)
    {
      S.RecoverMatches(cfg, State(), cancelled, deciding, script);
      S.RecoverKeepsGood(cfg, State(), cancelled, deciding, script);
      if !(snapshot.phase == S.Connected && tunnel.None?) || cancelled {
        return;
      }
      var failedNodeId := snapshot.active;
      if failedNodeId != "" {
        CooldownNode(failedNodeId, S.LOST_NOTE);
      }
      Elapse(deciding);
      var candidates := ListCandidates("", cfg.maxAttempts);
      TryCandidates(candidates, script, true);
    }

    method Connect(before: S.Gap, requestedId: string, deciding: S.Gap, script: S.Script)
      requires Valid()
      modifies this
      ensures Valid() && State() == S.Perform(cfg, old(State()), S.Connect(before, requestedId, deciding, script))
    {
      S.PerformMatches(cfg, State(), S.Connect(before, requestedId, deciding, script));
      S.PerformKeepsGood(cfg, State(), S.Connect(before, requestedId, deciding, script));
      Elapse(before);
      if tunnel.Some? {
        snapshot := S.MaintenanceSnapshot(snapshot, tunnel);
        Elapse(deciding);
        return;
      }
      if |nodes| == 0 {
        return;
      }
      Elapse(deciding);
      var maxAttempts := 1;
      if requestedId == "" && cfg.failoverEnabled {
        maxAttempts := cfg.maxAttempts;
      }
      TryBest(requestedId, maxAttempts, script);
    }

    /** Fetch, classify and probe into the cache, cooldowns preserved. */
    method PrepareNodes(
      fetched: seq<Node>, fetching: S.Gap, reply: Option<seq<C.Record>>, dials: nat -> seq<P.Dial>,
      probing: S.Gap, deciding: S.Gap)
      modifies this
      ensures State() == S.AutoReady(cfg, old(State()), fetched, fetching, reply, dials, probing, deciding)
    {
      var previousNodes := nodes;
      snapshot := S.Snapshot(S.FetchingNodes, "");
      Elapse(fetching);
      var prepared := fetched;
      snapshot := S.Snapshot(S.ProbingNodes, "");
      if cfg.classifierEnabled {
        prepared := C.ClassifyNodes(prepared, reply);
      }
      Elapse(probing);
      prepared := Pool.Probed(S.Batch(prepared, dials));
      nodes := F.PreserveNodeCooldowns(prepared, previousNodes, clock);
      snapshot := S.INITIAL;
      Elapse(deciding);
    }

    method AutoConnectExit(
      before: S.Gap, fetch: S.Fetch, fetching: S.Gap, reply: Option<seq<C.Record>>, dials: nat -> seq<P.Dial>,
      probing: S.Gap, deciding: S.Gap, script: S.Script)
      requires Valid() && S.GoodFetch(fetch)
      modifies this
      ensures Valid()
      ensures State() == S.Perform(cfg, old(State()),
                                   S.AutoConnect(before, fetch, fetching, reply, dials, probing, deciding, script))
    {
      ghost var action := S.AutoConnect(before, fetch, fetching, reply, dials, probing, deciding, script);
      S.PerformMatches(cfg, State(), action);
      S.PerformKeepsGood(cfg, State(), action);
      Elapse(before);
      if fetch.Err? {
        snapshot := S.Snapshot(S.FetchingNodes, "");
        Elapse(fetching);
        snapshot := S.Snapshot(S.Error, "");
        return;
      }
      PrepareNodes(fetch.value, fetching, reply, dials, probing, deciding);
      var maxAttempts := cfg.maxAttempts;
      if maxAttempts <= 0 {
        maxAttempts := 1;
      }
      TryBest("", maxAttempts, script);
    }

    method RefreshNodes(before: S.Gap, fetch: S.Fetch, fetching: S.Gap, after: S.Gap)
      requires Valid() && S.GoodFetch(fetch)
      modifies this
      ensures Valid() && State() == S.Perform(cfg, old(State()), S.RefreshNodes(before, fetch, fetching, after))
    {
      S.PerformMatches(cfg, State(), S.RefreshNodes(before, fetch, fetching, after));
      S.PerformKeepsGood(cfg, State(), S.RefreshNodes(before, fetch, fetching, after));
      Elapse(before);
      var previous, previousNodes := snapshot, nodes;
      snapshot := S.Snapshot(S.FetchingNodes, "");
      Elapse(fetching);
      if fetch.Ok? {
        nodes := F.PreserveNodeCooldowns(fetch.value, previousNodes, clock);
      }
      snapshot := S.MaintenanceSnapshot(previous, tunnel);
      Elapse(after);
    }

    method ClassifyNodes(before: S.Gap, reply: Option<seq<C.Record>>, asking: S.Gap, after: S.Gap)
      requires Valid()
      modifies this
      ensures Valid() && State() == S.Perform(cfg, old(State()), S.ClassifyNodes(before, reply, asking, after))
    {
      S.PerformMatches(cfg, State(), S.ClassifyNodes(before, reply, asking, after));
      S.PerformKeepsGood(cfg, State(), S.ClassifyNodes(before, reply, asking, after));
      Elapse(before);
      if |nodes| == 0 {
        return;
      }
      var previous := snapshot;
      snapshot := S.Snapshot(S.ProbingNodes, "");
      Elapse(asking);
      nodes := C.ClassifyNodes(nodes, reply);
      snapshot := S.MaintenanceSnapshot(previous, tunnel);
      Elapse(after);
    }

    method ProbeNodes(before: S.Gap, dials: nat -> seq<P.Dial>, probing: S.Gap, after: S.Gap)
      requires Valid()
      modifies this
      ensures Valid() && State() == S.Perform(cfg, old(State()), S.ProbeNodes(before, dials, probing, after))
    {
      S.PerformMatches(cfg, State(), S.ProbeNodes(before, dials, probing, after));
      S.PerformKeepsGood(cfg, State(), S.ProbeNodes(before, dials, probing, after));
      Elapse(before);
      if |nodes| == 0 {
        return;
      }
      var previous := snapshot;
      snapshot := S.Snapshot(S.ProbingNodes, "");
      Elapse(probing);
      nodes := Pool.Probed(S.Batch(nodes, dials));
      snapshot := S.MaintenanceSnapshot(previous, tunnel);
      Elapse(after);
    }

    /** Is the active node in the cache? */
    method ActiveNode() returns (found: bool)
      ensures found == S.HasNode(nodes, snapshot.active)
    {
      if snapshot.active == "" {
        return false;
      }
      for i := 0 to |nodes|
        invariant forall j :: 0 <= j < i ==> nodes[j].id != snapshot.active
      {
        if nodes[i].id == snapshot.active {
          return true;
        }
      }
      return false;
    }

    method VerifyExit(before: S.Gap, verdict: S.Verdict, verifying: S.Gap, after: S.Gap)
      requires Valid()
      modifies this
      ensures Valid() && State() == S.Perform(cfg, old(State()), S.VerifyExit(before, verdict, verifying, after))
    {
      S.PerformMatches(cfg, State(), S.VerifyExit(before, verdict, verifying, after));
      Elapse(before);
      var found := ActiveNode();
      if !found {
        return;
      }
      Elapse(verifying);
      if verdict == S.Failed {
        return;
      }
      snapshot := snapshot.(phase := if verdict == S.Passed then S.Connected else S.Error);
      Elapse(after);
    }

    method Disconnect(before: S.Gap, after: S.Gap)
      requires Valid()
      modifies this
      ensures Valid() && State() == S.Perform(cfg, old(State()), S.Disconnect(before, after))
    {
      Elapse(before);
      Happen(T.Down);
      snapshot := S.INITIAL;
      Elapse(after);
    }

    method TransportTick(before: S.Gap, cancelled: bool, deciding: S.Gap, script: S.Script)
      requires Valid()
      modifies this
      ensures Valid() && State() == S.Perform(cfg, old(State()), S.TransportTick(before, cancelled, deciding, script))
    {
      Elapse(before);
      if snapshot.phase == S.Connected && tunnel.None? {
        healthFailures := 0;
        RecoverExit(cancelled, deciding, script);
      }
    }

    /** What a health tick finds and does to the counter, and whether it is time to give the exit up. */
    method CheckHealth(verdict: S.Verdict, reachable: bool, checking: S.Gap) returns (giveUp: bool)
      requires Valid()
      modifies this
      ensures Valid() && giveUp == S.GivesUp(cfg, old(State()), verdict, reachable)
      ensures State() == S.Checked(cfg, old(State()), verdict, reachable, checking)
    {
      if !cfg.verifyEnabled || !(snapshot.phase == S.Connected && tunnel.Some?) {
        healthFailures := 0;
        return false;
      }
      var found := ActiveNode();
      Elapse(checking);
      var passed := found && (verdict == S.Passed || (verdict == S.Failed && reachable));
      if passed {
        healthFailures := 0;
        return false;
      }
      healthFailures := healthFailures + 1;
      if healthFailures >= M.Threshold(cfg.failureThreshold) {
        healthFailures := 0;
        return true;
      }
      return false;
    }

    method HealthTick(
      before: S.Gap, verdict: S.Verdict, reachable: bool, checking: S.Gap, cancelled: bool, deciding: S.Gap,
      script: S.Script)
      requires Valid()
      modifies this
      ensures Valid()
      ensures State() == S.Perform(cfg, old(State()),
                                   S.HealthTick(before, verdict, reachable, checking, cancelled, deciding, script))
    {
      Elapse(before);
      var giveUp := CheckHealth(verdict, reachable, checking);
      if giveUp {
        Happen(T.Down);
        RecoverExit(cancelled, deciding, script);
      }
    }
  }
}
