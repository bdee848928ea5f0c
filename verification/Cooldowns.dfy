/** What a cooldown promises over every serial run of the server, and what a recovery achieves. */
module Cooldowns {
  import opened Prelude
  import opened Nodes
  import opened Failover
  import opened Server
  import T = Tunnel
  import C = Classify
  import P = Probe
  import Pool = ProbePool
  import Sorting
  import Source

  // ------------------------------------------------------------------ cooldowns survive

  ghost predicate CooledUntil(nodes: seq<Node>, id: string, until: int) {
    forall i :: 0 <= i < |nodes| && nodes[i].id == id ==>
      nodes[i].cooldownUntil.Some? && nodes[i].cooldownUntil.value >= until
  }

  ghost predicate NotOffered(offers: seq<Offer>, from: nat, id: string, until: int) {
    from <= |offers| && forall k :: from <= k < |offers| && offers[k].at < until ==> id !in offers[k].ids
  }

  /** Until the deadline the node is cooling, and no candidate list since position `from` names it. */
  ghost predicate Guarded(cfg: Config, st: State, id: string, until: int, from: nat) {
    && DistinctIds(st.nodes)
    && (st.clock < until ==> CooledUntil(st.nodes, id, until))
    && (cfg.cooldown > 0 ==> until <= st.clock + cfg.cooldown)
    && NotOffered(st.offers, from, id, until)
  }

  lemma GuardCooldown(cfg: Config, st: State, id: string, until: int, from: nat, failed: string, message: string)
    requires Guarded(cfg, st, id, until, from)
    ensures Guarded(cfg, CooldownNode(cfg, st, failed, message), id, until, from)
  {
    MarkFailureEffect(st.nodes, failed, message, cfg.cooldown, st.clock);
    SameIdsStayDistinct(st.nodes, CooldownNode(cfg, st, failed, message).nodes);
  }

  lemma GuardOffer(cfg: Config, st: State, id: string, until: int, from: nat, requestedId: string, maxAttempts: int)
    requires Guarded(cfg, st, id, until, from)
    ensures Guarded(cfg, Offering(st, requestedId, maxAttempts), id, until, from)
    ensures st.clock < until ==> id !in Ids(Listed(st, requestedId, maxAttempts))
  {
    var list := Listed(st, requestedId, maxAttempts);
    CandidatesAreConnectable(st.nodes, requestedId, maxAttempts, st.clock);
    if st.clock < until && id in Ids(list) {
      var k :| 0 <= k < |list| && Ids(list)[k] == id;
      assert list[k] in list;
    }
  }

  lemma {:induction false} GuardTryFrom(
    cfg: Config, st: State, candidates: seq<Node>, i: nat, script: Script, recovering: bool,
    id: string, until: int, from: nat)
    requires i <= |candidates| && Guarded(cfg, st, id, until, from)
    ensures Guarded(cfg, TryFrom(cfg, st, candidates, i, script, recovering).0, id, until, from)
    decreases |candidates| - i
  {
    if i == |candidates| {
    } else {
      var shown := Show(st, AttemptPhase(recovering, i), candidates[i].id);
      ConnectCandidateMatches(cfg, shown, candidates[i], script(i));
      var (tried, ok) := ConnectCandidate(cfg, shown, candidates[i], script(i));
      if !ok {
        GuardCooldown(cfg, tried, id, until, from, candidates[i].id, script(i).error);
        GuardTryFrom(cfg, CooldownNode(cfg, tried, candidates[i].id, script(i).error), candidates, i + 1, script,
                     recovering, id, until, from);
      }
    }
  }

  lemma GuardTryAll(
    cfg: Config, st: State, requestedId: string, maxAttempts: int, script: Script, recovering: bool,
    id: string, until: int, from: nat)
    requires Guarded(cfg, st, id, until, from)
    ensures var r := TryAll(cfg, Offering(st, requestedId, maxAttempts), Listed(st, requestedId, maxAttempts), script, recovering);
            Guarded(cfg, r, id, until, from)
    ensures Guarded(cfg, Offering(st, requestedId, maxAttempts), id, until, from)
  {
    GuardOffer(cfg, st, id, until, from, requestedId, maxAttempts);
    GuardTryFrom(cfg, Offering(st, requestedId, maxAttempts), Listed(st, requestedId, maxAttempts), 0, script,
                 recovering, id, until, from);
  }

  lemma GuardRecover(
    cfg: Config, st: State, cancelled: bool, deciding: Gap, script: Script, id: string, until: int, from: nat)
    requires Guarded(cfg, st, id, until, from)
    ensures Guarded(cfg, Recover(cfg, st, cancelled, deciding, script), id, until, from)
  {
    if NeedsRecovery(st) && !cancelled {
      GuardCooldown(cfg, st, id, until, from, st.snapshot.active, LOST_NOTE);
      var cooled := if st.snapshot.active != "" then CooldownNode(cfg, st, st.snapshot.active, LOST_NOTE) else st;
      GuardTryAll(cfg, Pass(cooled, deciding), "", cfg.maxAttempts, script, true, id, until, from);
    }
  }

  /** A fetch replaces the cache; what was cooling and is fetched again goes on cooling. */
  lemma PreserveKeepsCooled(nodes: seq<Node>, previous: seq<Node>, now: int, id: string, until: int)
    requires DistinctIds(nodes) && DistinctIds(previous) && (id in Ids(nodes) ==> id in Ids(previous))
    requires now < until ==> CooledUntil(previous, id, until)
    ensures DistinctIds(PreserveCooldowns(nodes, previous, now))
    ensures now < until ==> CooledUntil(PreserveCooldowns(nodes, previous, now), id, until)
  {
    var r := PreserveCooldowns(nodes, previous, now);
    SameIdsStayDistinct(nodes, r);
    CoolingByIdCorrect(previous, now);
    if now < until {
      forall i | 0 <= i < |r| && r[i].id == id
        ensures r[i].cooldownUntil.Some? && r[i].cooldownUntil.value >= until
      {
        assert Ids(nodes)[i] == id;
        var j :| 0 <= j < |previous| && Ids(previous)[j] == id;
        assert previous[j] in previous && Cooling(previous[j], now);
      }
    }
  }

  lemma ClassifiedKeepsCooled(nodes: seq<Node>, reply: Option<seq<C.Record>>, id: string, until: int)
    requires DistinctIds(nodes)
    ensures DistinctIds(C.Classified(nodes, reply)) && Ids(C.Classified(nodes, reply)) == Ids(nodes)
    ensures CooledUntil(nodes, id, until) ==> CooledUntil(C.Classified(nodes, reply), id, until)
  {
    C.ClassifiedKeeps(nodes, reply);
    SameIdsStayDistinct(nodes, C.Classified(nodes, reply));
    assert forall i :: 0 <= i < |nodes| ==> C.Classified(nodes, reply)[i].id == Ids(nodes)[i];
  }

  lemma ProbedKeepsCooled(nodes: seq<Node>, dials: nat -> seq<P.Dial>, id: string, until: int)
    requires DistinctIds(nodes)
    ensures DistinctIds(Pool.Probed(Batch(nodes, dials))) && Ids(Pool.Probed(Batch(nodes, dials))) == Ids(nodes)
    ensures CooledUntil(nodes, id, until) ==> CooledUntil(Pool.Probed(Batch(nodes, dials)), id, until)
  {
    var r := Pool.Probed(Batch(nodes, dials));
    Pool.ProbedKeeps(Batch(nodes, dials));
    SameIdsStayDistinct(nodes, r);
    assert forall i :: 0 <= i < |nodes| ==> r[i].id == Ids(r)[i] && nodes[i].id == Ids(nodes)[i];
  }

  /** A fetch with distinct IDs that does not bring the node back after it was gone. */
  ghost predicate FetchKeeps(fetch: Fetch, st: State, id: string) {
    fetch.Ok? ==> DistinctIds(fetch.value) && (id in Ids(fetch.value) ==> id in Ids(st.nodes))
  }

  ghost predicate ActionKeeps(action: Action, st: State, id: string) {
    match action
    case RefreshNodes(_, fetch, _, _) => FetchKeeps(fetch, st, id)
    case AutoConnect(_, fetch, _, _, _, _, _, _) => FetchKeeps(fetch, st, id)
    case _ => true
  }

  /** Grading and probing a fetched list keep its IDs and its cooldowns. */
  lemma PreparedKeepsIds(cfg: Config, fetched: seq<Node>, reply: Option<seq<C.Record>>, dials: nat -> seq<P.Dial>)
    requires DistinctIds(fetched)
    ensures var r := PreparedNodes(cfg, fetched, reply, dials);
            && DistinctIds(r) && Ids(r) == Ids(fetched)
            && forall i :: 0 <= i < |fetched| ==> r[i].cooldownUntil == fetched[i].cooldownUntil
  {
    var graded := if cfg.classifierEnabled then C.Classified(fetched, reply) else fetched;
    C.ClassifiedKeeps(fetched, reply);
    Pool.ProbedKeeps(Batch(graded, dials));
    SameIdsStayDistinct(fetched, PreparedNodes(cfg, fetched, reply, dials));
  }

  lemma GuardAutoReady(
    cfg: Config, st: State, fetched: seq<Node>, fetching: Gap, reply: Option<seq<C.Record>>,
    dials: nat -> seq<P.Dial>, probing: Gap, deciding: Gap, id: string, until: int, from: nat)
    requires Guarded(cfg, st, id, until, from) && FetchKeeps(Ok(fetched), st, id)
    ensures Guarded(cfg, AutoReady(cfg, st, fetched, fetching, reply, dials, probing, deciding), id, until, from)
  {
    PreparedKeepsIds(cfg, fetched, reply, dials);
    var probed := AutoProbed(st, fetching, probing);
    PreserveKeepsCooled(PreparedNodes(cfg, fetched, reply, dials), st.nodes, probed.clock, id, until);
  }

  lemma GuardAuto(
    cfg: Config, st: State, fetch: Fetch, fetching: Gap, reply: Option<seq<C.Record>>,
    dials: nat -> seq<P.Dial>, probing: Gap, deciding: Gap, script: Script, id: string, until: int, from: nat)
    requires Guarded(cfg, st, id, until, from) && FetchKeeps(fetch, st, id)
    ensures Guarded(cfg, AutoConnectAction(cfg, st, fetch, fetching, reply, dials, probing, deciding, script), id, until, from)
  {
    if fetch.Ok? {
      GuardAutoReady(cfg, st, fetch.value, fetching, reply, dials, probing, deciding, id, until, from);
      GuardTryAll(cfg, AutoReady(cfg, st, fetch.value, fetching, reply, dials, probing, deciding), "",
                  if cfg.maxAttempts <= 0 then 1 else cfg.maxAttempts, script, false, id, until, from);
    }
  }

  lemma GuardMaintain(
    cfg: Config, st: State, result: seq<Node>, working: Gap, after: Gap, id: string, until: int, from: nat)
    requires Guarded(cfg, st, id, until, from) && DistinctIds(result)
    requires CooledUntil(st.nodes, id, until) ==> CooledUntil(result, id, until)
    ensures Guarded(cfg, Maintain(st, result, working, after), id, until, from)
  {
  }

  lemma GuardRefresh(
    cfg: Config, st: State, fetch: Fetch, fetching: Gap, after: Gap, id: string, until: int, from: nat)
    requires Guarded(cfg, st, id, until, from) && FetchKeeps(fetch, st, id)
    ensures Guarded(cfg, Refresh(st, fetch, fetching, after), id, until, from)
  {
    if fetch.Ok? {
      PreserveKeepsCooled(fetch.value, st.nodes, Pass(Show(st, FetchingNodes, ""), fetching).clock, id, until);
    }
  }

  lemma GuardHealth(
    cfg: Config, st: State, verdict: Verdict, reachable: bool, checking: Gap, cancelled: bool,
    deciding: Gap, script: Script, id: string, until: int, from: nat)
    requires Guarded(cfg, st, id, until, from)
    ensures Guarded(cfg, Health(cfg, st, verdict, reachable, checking, cancelled, deciding, script), id, until, from)
  {
    GuardRecover(cfg, Happen(Checked(cfg, st, verdict, reachable, checking), T.Down), cancelled, deciding, script, id, until, from);
  }

  lemma GuardTransport(
    cfg: Config, st: State, cancelled: bool, deciding: Gap, script: Script, id: string, until: int, from: nat)
    requires Guarded(cfg, st, id, until, from)
    ensures Guarded(cfg, Transport(cfg, st, cancelled, deciding, script), id, until, from)
  {
    GuardRecover(cfg, st.(failures := 0), cancelled, deciding, script, id, until, from);
  }

  lemma GuardConnect(
    cfg: Config, st: State, requestedId: string, deciding: Gap, script: Script, id: string, until: int, from: nat)
    requires Guarded(cfg, st, id, until, from)
    ensures Guarded(cfg, ConnectAction(cfg, st, requestedId, deciding, script), id, until, from)
  {
    var limit := if requestedId == "" && cfg.failoverEnabled then cfg.maxAttempts else 1;
    GuardTryAll(cfg, Pass(st, deciding), requestedId, limit, script, false, id, until, from);
  }

  lemma GuardPerform(cfg: Config, before: State, action: Action, id: string, until: int, from: nat)
    requires Guarded(cfg, before, id, until, from) && ActionKeeps(action, before, id)
    ensures Guarded(cfg, Perform(cfg, before, action), id, until, from)
  {
    GuardAct(cfg, Pass(before, action.before), action, id, until, from);
  }

  lemma GuardAct(cfg: Config, st: State, action: Action, id: string, until: int, from: nat)
    requires Guarded(cfg, st, id, until, from) && ActionKeeps(action, st, id)
    ensures Guarded(cfg, Act(cfg, st, action), id, until, from)
  {
    match action
    case RefreshNodes(_, fetch, fetching, after) => GuardRefresh(cfg, st, fetch, fetching, after, id, until, from);
    case ClassifyNodes(_, reply, asking, after) =>
      ClassifiedKeepsCooled(st.nodes, reply, id, until);
      GuardMaintain(cfg, st, C.Classified(st.nodes, reply), asking, after, id, until, from);
    case ProbeNodes(_, dials, probing, after) =>
      ProbedKeepsCooled(st.nodes, dials, id, until);
      GuardMaintain(cfg, st, Pool.Probed(Batch(st.nodes, dials)), probing, after, id, until, from);
    case Connect(_, requestedId, deciding, script) =>
      GuardConnect(cfg, st, requestedId, deciding, script, id, until, from);
    case AutoConnect(_, fetch, fetching, reply, dials, probing, deciding, script) =>
      GuardAuto(cfg, st, fetch, fetching, reply, dials, probing, deciding, script, id, until, from);
    case TransportTick(_, cancelled, deciding, script) =>
      GuardTransport(cfg, st, cancelled, deciding, script, id, until, from);
    case HealthTick(_, verdict, reachable, checking, cancelled, deciding, script) =>
      GuardHealth(cfg, st, verdict, reachable, checking, cancelled, deciding, script, id, until, from);
    case _ =>
  }

  /** No fetch of the run brings the node back after an earlier fetch dropped it. */
  ghost predicate RunKeeps(cfg: Config, st: State, actions: seq<Action>, id: string) {
    forall i :: 0 <= i < |actions| ==> ActionKeeps(actions[i], Run(cfg, st, actions[..i]), id)
  }

  lemma {:induction false} GuardRun(
    cfg: Config, st: State, actions: seq<Action>, id: string, until: int, from: nat)
    requires Guarded(cfg, st, id, until, from) && RunKeeps(cfg, st, actions, id)
    ensures Guarded(cfg, Run(cfg, st, actions), id, until, from)
  {
    if actions == [] {
    } else {
      var front := actions[..|actions|-1];
      forall i | 0 <= i < |front| ensures ActionKeeps(front[i], Run(cfg, st, front[..i]), id) {
        assert front[..i] == actions[..i] && front[i] == actions[i];
      }
      GuardRun(cfg, st, front, id, until, from);
      GuardPerform(cfg, Run(cfg, st, front), actions[|actions|-1], id, until, from);
    }
  }

  /**
   A node that failed at time t appears in no candidate list computed before t + cooldown, automatic or by ID,
   in the course of any run or at its end, whatever refreshes, classifications, probes and further failures
   happen on the way.
   */
  lemma CooldownIsHonoured(
    cfg: Config, before: State, id: string, message: string, actions: seq<Action>, requestedId: string, maxAttempts: int)
    requires cfg.cooldown > 0 && DistinctIds(before.nodes)
    requires RunKeeps(cfg, CooldownNode(cfg, before, id, message), actions, id)
    ensures var st := CooldownNode(cfg, before, id, message);
            var r := Run(cfg, st, actions);
            && NotOffered(r.offers, |st.offers|, id, before.clock + cfg.cooldown)
            && (r.clock < before.clock + cfg.cooldown ==> id !in Ids(Listed(r, requestedId, maxAttempts)))
  {
    var st, until := CooldownNode(cfg, before, id, message), before.clock + cfg.cooldown;
    MarkFailureEffect(before.nodes, id, message, cfg.cooldown, before.clock);
    SameIdsStayDistinct(before.nodes, st.nodes);
    GuardRun(cfg, st, actions, id, until, |st.offers|);
    GuardOffer(cfg, Run(cfg, st, actions), id, until, |st.offers|, requestedId, maxAttempts);
  }

  /**
   One fetch, taken at `now` before the deadline, keeps the node cooling if and only if it does not bring the
   node back: fetched nodes carry no cooldown of their own.
   */
  lemma StaysCooledIff(nodes: seq<Node>, previous: seq<Node>, now: int, id: string, until: int)
    requires DistinctIds(nodes) && DistinctIds(previous) && forall i :: 0 <= i < |nodes| ==> nodes[i].cooldownUntil.None?
    requires now < until && CooledUntil(previous, id, until)
    ensures CooledUntil(PreserveCooldowns(nodes, previous, now), id, until) <==>
              (id in Ids(nodes) ==> id in Ids(previous))
  {
    if id in Ids(nodes) && id !in Ids(previous) {
      AbsentIsNotCooling(previous, now, id);
      var i :| 0 <= i < |nodes| && Ids(nodes)[i] == id;
      assert PreserveCooldowns(nodes, previous, now)[i] == nodes[i];
    } else {
      PreserveKeepsCooled(nodes, previous, now, id, until);
    }
  }

  /** The hypothesis of CooldownIsHonoured, fetch by fetch: it is what keeps the node cooling through a refresh. */
  lemma RefreshStaysCooledIff(st: State, fetched: seq<Node>, fetching: Gap, after: Gap, id: string, until: int)
    requires DistinctIds(fetched) && DistinctIds(st.nodes) && forall i :: 0 <= i < |fetched| ==> Source.Fresh(fetched[i])
    requires st.clock + fetching.elapsed < until && CooledUntil(st.nodes, id, until)
    ensures CooledUntil(Refresh(st, Ok(fetched), fetching, after).nodes, id, until) <==> FetchKeeps(Ok(fetched), st, id)
  {
    StaysCooledIff(fetched, st.nodes, st.clock + fetching.elapsed, id, until);
  }

  lemma PreparedStaysCooledIff(
    cfg: Config, st: State, fetched: seq<Node>, reply: Option<seq<C.Record>>, dials: nat -> seq<P.Dial>,
    now: int, id: string, until: int)
    requires DistinctIds(fetched) && DistinctIds(st.nodes) && forall i :: 0 <= i < |fetched| ==> Source.Fresh(fetched[i])
    requires now < until && CooledUntil(st.nodes, id, until)
    ensures CooledUntil(AutoNodes(cfg, st.nodes, fetched, reply, dials, now), id, until) == FetchKeeps(Ok(fetched), st, id)
  {
    PreparedKeepsIds(cfg, fetched, reply, dials);
    StaysCooledIff(PreparedNodes(cfg, fetched, reply, dials), st.nodes, now, id, until);
  }

  /** And through an automatic connection, up to the point where it computes its candidates. */
  lemma AutoStaysCooledIff(
    cfg: Config, st: State, fetched: seq<Node>, fetching: Gap, reply: Option<seq<C.Record>>,
    dials: nat -> seq<P.Dial>, probing: Gap, deciding: Gap, id: string, until: int)
    requires DistinctIds(fetched) && DistinctIds(st.nodes) && forall i :: 0 <= i < |fetched| ==> Source.Fresh(fetched[i])
    requires AutoProbed(st, fetching, probing).clock < until && CooledUntil(st.nodes, id, until)
    ensures var ready := AutoReady(cfg, st, fetched, fetching, reply, dials, probing, deciding);
            CooledUntil(ready.nodes, id, until) == FetchKeeps(Ok(fetched), st, id)
  {
    PreparedStaysCooledIff(cfg, st, fetched, reply, dials, AutoProbed(st, fetching, probing).clock, id, until);
  }

  /** The refresh of a fetch that brings an absent node back makes it a candidate. */
  lemma AbsentComesBack(st: State, fetched: seq<Node>, n: Node)
    requires n.id !in Ids(st.nodes) && n.id != "" && n in fetched && Source.Fresh(n) && n.protocol == "tcp"
    ensures n in Listed(Refresh(st, Ok(fetched), QUIET, QUIET), "", 0)
    ensures Listed(Refresh(st, Ok(fetched), QUIET, QUIET), n.id, 1) != []
  {
    var r := Refresh(st, Ok(fetched), QUIET, QUIET);
    AbsentIsNotCooling(st.nodes, st.clock, n.id);
    var i :| 0 <= i < |fetched| && fetched[i] == n;
    assert r.nodes[i] == n && n in r.nodes && Connectable(n, r.clock);
    FilterElements(r.nodes, r.clock);
    Sorting.SortPermutes(Before, Filter(r.nodes, r.clock));
    CandidatesAreConnectable(r.nodes, n.id, 1, r.clock);
  }

  function RefreshWith(fetched: seq<Node>): Action {
    RefreshNodes(QUIET, Ok(fetched), QUIET, QUIET)
  }

  lemma RefreshWithIs(cfg: Config, st: State, fetched: seq<Node>)
    ensures Perform(cfg, st, RefreshWith(fetched)) == Refresh(st, Ok(fetched), QUIET, QUIET)
    ensures Refresh(st, Ok(fetched), QUIET, QUIET).clock == st.clock
    ensures Ids(Refresh(st, Ok(fetched), QUIET, QUIET).nodes) == Ids(fetched)
  {
  }

  lemma FailedIsCooling(cfg: Config, before: State, id: string, message: string)
    requires cfg.cooldown > 0 && DistinctIds(before.nodes)
    ensures var st := CooldownNode(cfg, before, id, message);
            CooledUntil(st.nodes, id, before.clock + cfg.cooldown) && Ids(st.nodes) == Ids(before.nodes)
  {
    MarkFailureEffect(before.nodes, id, message, cfg.cooldown, before.clock);
  }

  /**
   Without that hypothesis a cooldown is not honoured: a node fails and is cooling, one fetch leaves it out, the
   next returns it, and before its deadline it is a candidate again, automatic and by ID.
   */
  lemma ReintroductionLosesCooldown(
    cfg: Config, before: State, n: Node, message: string, without: seq<Node>, with: seq<Node>)
    requires cfg.cooldown > 0 && DistinctIds(before.nodes) && n.id in Ids(before.nodes) && n.id != ""
    requires n.id !in Ids(without) && n in with && Source.Fresh(n) && n.protocol == "tcp"
    ensures var st, until := CooldownNode(cfg, before, n.id, message), before.clock + cfg.cooldown;
            var r := Run(cfg, st, [RefreshWith(without), RefreshWith(with)]);
            && CooledUntil(st.nodes, n.id, until) && Ids(st.nodes) == Ids(before.nodes) && r.clock < until
            && n in Listed(r, "", 0) && Listed(r, n.id, 1) != []
  {
    var st := CooldownNode(cfg, before, n.id, message);
    FailedIsCooling(cfg, before, n.id, message);
    RunTwo(cfg, st, RefreshWith(without), RefreshWith(with));
    RefreshWithIs(cfg, st, without);
    var gone := Refresh(st, Ok(without), QUIET, QUIET);
    RefreshWithIs(cfg, gone, with);
    AbsentComesBack(gone, with, n);
  }

  // ------------------------------------------------------------------ what a recovery achieves

  /** The node of that ID failed at `since` or later and is cooling accordingly. */
  ghost predicate CooledDown(cfg: Config, nodes: seq<Node>, id: string, since: int) {
    forall i :: 0 <= i < |nodes| && nodes[i].id == id ==>
      nodes[i].status == Cooldown &&
      (cfg.cooldown > 0 ==> nodes[i].cooldownUntil.Some? && nodes[i].cooldownUntil.value >= since + cfg.cooldown)
  }

  lemma CooldownCools(cfg: Config, st: State, failed: string, message: string, id: string, since: int)
    requires DistinctIds(st.nodes) && since <= st.clock && (id == failed || CooledDown(cfg, st.nodes, id, since))
    ensures CooledDown(cfg, CooldownNode(cfg, st, failed, message).nodes, id, since)
  {
    MarkFailureEffect(st.nodes, failed, message, cfg.cooldown, st.clock);
    var r := CooldownNode(cfg, st, failed, message).nodes;
    assert forall i :: 0 <= i < |r| ==> r[i].id == Ids(r)[i] && st.nodes[i].id == Ids(st.nodes)[i];
  }

  /** How many candidates a loop with this result has found wanting. */
  function FailedCount(result: Option<nat>, candidates: seq<Node>): nat {
    if result.Some? then result.value else |candidates|
  }

  /** What the candidate loop from `i` on has achieved when it ends with `r` and `result`. */
  ghost predicate LoopDone(
    cfg: Config, candidates: seq<Node>, i: nat, script: Script, since: int, r: State, result: Option<nat>)
  {
    && DistinctIds(r.nodes) && r.clock >= since
    && i <= FailedCount(result, candidates) <= |candidates|
    && (forall j :: i <= j < FailedCount(result, candidates) ==> !Works(cfg, script(j)))
    && (forall j :: i <= j < FailedCount(result, candidates) ==> CooledDown(cfg, r.nodes, candidates[j].id, since))
    && (result.None? ==> r.tunnel.None?)
    && (result.Some? ==>
          && result.value < |candidates| && Works(cfg, script(result.value))
          && r.snapshot == Snapshot(Connected, candidates[result.value].id)
          && (r.tunnel.None? || r.tunnel == Some(candidates[result.value].id)))
  }

  lemma {:induction false} LoopKeepsCooled(
    cfg: Config, st: State, candidates: seq<Node>, i: nat, script: Script, recovering: bool, id: string, since: int)
    requires i <= |candidates| && DistinctIds(st.nodes) && since <= st.clock && CooledDown(cfg, st.nodes, id, since)
    ensures CooledDown(cfg, TryFrom(cfg, st, candidates, i, script, recovering).0.nodes, id, since)
    decreases |candidates| - i
  {
    if i == |candidates| {
    } else {
      var shown := Show(st, AttemptPhase(recovering, i), candidates[i].id);
      ConnectCandidateMatches(cfg, shown, candidates[i], script(i));
      var (tried, ok) := ConnectCandidate(cfg, shown, candidates[i], script(i));
      if !ok {
        CooldownCools(cfg, tried, candidates[i].id, script(i).error, id, since);
        MarkFailureEffect(tried.nodes, candidates[i].id, script(i).error, cfg.cooldown, tried.clock);
        var next := CooldownNode(cfg, tried, candidates[i].id, script(i).error);
        SameIdsStayDistinct(tried.nodes, next.nodes);
        LoopKeepsCooled(cfg, next, candidates, i + 1, script, recovering, id, since);
      }
    }
  }

  /** One failed attempt: the next state, cooled for the failed candidate and fit to go on from. */
  lemma FailedAttempt(cfg: Config, st: State, node: Node, a: Attempt, phase: Phase, since: int) returns (next: State)
    requires DistinctIds(st.nodes) && since <= st.clock && st.tunnel.None? && !Works(cfg, a)
    ensures var (tried, ok) := ConnectCandidate(cfg, Show(st, phase, node.id), node, a);
            !ok && next == CooldownNode(cfg, tried, node.id, a.error)
    ensures DistinctIds(next.nodes) && since <= next.clock && next.tunnel.None?
    ensures CooledDown(cfg, next.nodes, node.id, since)
  {
    var shown := Show(st, phase, node.id);
    ConnectCandidateMatches(cfg, shown, node, a);
    var (tried, ok) := ConnectCandidate(cfg, shown, node, a);
    next := CooldownNode(cfg, tried, node.id, a.error);
    MarkFailureEffect(tried.nodes, node.id, a.error, cfg.cooldown, tried.clock);
    SameIdsStayDistinct(tried.nodes, next.nodes);
    CooldownCools(cfg, tried, node.id, a.error, node.id, since);
  }

  lemma DoneOneMore(
    cfg: Config, candidates: seq<Node>, i: nat, script: Script, since: int, r: State, result: Option<nat>)
    requires i < |candidates| && LoopDone(cfg, candidates, i + 1, script, since, r, result)
    requires !Works(cfg, script(i)) && CooledDown(cfg, r.nodes, candidates[i].id, since)
    ensures LoopDone(cfg, candidates, i, script, since, r, result)
  {
  }

  /** With no session at the start, the loop stops at the first candidate that works, or tries them all. */
  lemma {:induction false} LoopOutcome(
    cfg: Config, st: State, candidates: seq<Node>, i: nat, script: Script, recovering: bool, since: int)
    requires i <= |candidates| && DistinctIds(st.nodes) && since <= st.clock && st.tunnel.None?
    ensures var (r, result) := TryFrom(cfg, st, candidates, i, script, recovering);
            LoopDone(cfg, candidates, i, script, since, r, result)
    decreases |candidates| - i
  {
    if i == |candidates| {
    } else {
      if Works(cfg, script(i)) {
        ConnectCandidateMatches(cfg, Show(st, AttemptPhase(recovering, i), candidates[i].id), candidates[i], script(i));
      } else {
        var next := FailedAttempt(cfg, st, candidates[i], script(i), AttemptPhase(recovering, i), since);
        LoopOutcome(cfg, next, candidates, i + 1, script, recovering, since);
        LoopKeepsCooled(cfg, next, candidates, i + 1, script, recovering, candidates[i].id, since);
        var (r, result) := TryFrom(cfg, next, candidates, i + 1, script, recovering);
        DoneOneMore(cfg, candidates, i, script, since, r, result);
      }
    }
  }

  /** The state in which recoverExit computes its candidates. */
  function RecoveryPoint(cfg: Config, st: State, deciding: Gap): State {
    Pass(if st.snapshot.active != "" then CooldownNode(cfg, st, st.snapshot.active, LOST_NOTE) else st, deciding)
  }

  lemma ListIsDistinct(st: State, maxAttempts: int)
    requires DistinctIds(st.nodes)
    ensures DistinctIds(Listed(st, "", maxAttempts))
    ensures maxAttempts > 0 ==> |Listed(st, "", maxAttempts)| <= maxAttempts
  {
    StrictlySorted(st.nodes, st.clock);
  }

  /** A node marked as failed less than a cooldown ago is not listed. */
  lemma FailedIsNotListed(cfg: Config, st: State, id: string, message: string, deciding: Gap, maxAttempts: int)
    requires DistinctIds(st.nodes) && deciding.elapsed < cfg.cooldown
    ensures id !in Ids(Listed(Pass(CooldownNode(cfg, st, id, message), deciding), "", maxAttempts))
  {
    var cooled := CooldownNode(cfg, st, id, message);
    MarkFailureEffect(st.nodes, id, message, cfg.cooldown, st.clock);
    SameIdsStayDistinct(st.nodes, cooled.nodes);
    assert Guarded(cfg, Pass(cooled, deciding), id, st.clock + cfg.cooldown, |cooled.offers|);
    GuardOffer(cfg, Pass(cooled, deciding), id, st.clock + cfg.cooldown, |cooled.offers|, "", maxAttempts);
  }

  lemma RecoveryList(cfg: Config, st: State, deciding: Gap)
    requires DistinctIds(st.nodes) && NeedsRecovery(st)
    ensures var point := RecoveryPoint(cfg, st, deciding);
            var list := Listed(point, "", cfg.maxAttempts);
            && DistinctIds(point.nodes) && DistinctIds(list) && point.tunnel.None? && point.clock >= st.clock
            && (cfg.maxAttempts > 0 ==> |list| <= cfg.maxAttempts)
            && (st.snapshot.active != "" && deciding.elapsed < cfg.cooldown ==> st.snapshot.active !in Ids(list))
  {
    var id := st.snapshot.active;
    MarkFailureEffect(st.nodes, id, LOST_NOTE, cfg.cooldown, st.clock);
    SameIdsStayDistinct(st.nodes, CooldownNode(cfg, st, id, LOST_NOTE).nodes);
    ListIsDistinct(RecoveryPoint(cfg, st, deciding), cfg.maxAttempts);
    if id != "" && deciding.elapsed < cfg.cooldown {
      FailedIsNotListed(cfg, st, id, LOST_NOTE, deciding, cfg.maxAttempts);
    }
  }

  ghost predicate FirstWorking(cfg: Config, list: seq<Node>, script: Script, k: int) {
    0 <= k < |list| && Works(cfg, script(k)) && forall j :: 0 <= j < k ==> !Works(cfg, script(j))
  }

  ghost predicate RecoveredTo(cfg: Config, list: seq<Node>, k: int, since: int, r: State)
    requires 0 <= k < |list|
  {
    && r.snapshot == Snapshot(Connected, list[k].id)
    && (r.tunnel.None? || r.tunnel == Some(list[k].id))
    && forall j :: 0 <= j < k ==> CooledDown(cfg, r.nodes, list[j].id, since)
  }

  /** What trying a list from an idle tunnel comes to: the first that works, or an error with all of them cooling. */
  ghost predicate Tried(cfg: Config, list: seq<Node>, script: Script, since: int, r: State) {
    || (r.snapshot == Snapshot(Error, "") && r.tunnel.None?
        && (forall j :: 0 <= j < |list| ==> !Works(cfg, script(j)) && CooledDown(cfg, r.nodes, list[j].id, since)))
    || exists k :: FirstWorking(cfg, list, script, k) && RecoveredTo(cfg, list, k, since, r)
  }

  lemma TriedAll(cfg: Config, st: State, list: seq<Node>, script: Script, recovering: bool)
    requires DistinctIds(st.nodes) && st.tunnel.None?
    ensures Tried(cfg, list, script, st.clock, TryAll(cfg, st, list, script, recovering))
    ensures TryAll(cfg, st, list, script, recovering).offers == st.offers
  {
    LoopOutcome(cfg, st, list, 0, script, recovering, st.clock);
    LoopKeepsOffers(cfg, st, list, 0, script, recovering);
    var (tried, result) := TryFrom(cfg, st, list, 0, script, recovering);
    if result.Some? {
      assert FirstWorking(cfg, list, script, result.value);
      assert RecoveredTo(cfg, list, result.value, st.clock, tried);
    }
  }

  /**
   A recovery tries pairwise distinct nodes, no more than allowed and never the one that just failed. It ends
   Connected to the first of them, in candidate order, that connects and passes verification where enabled;
   or, when none does, in Error with the tunnel idle. Every node it tried in vain is cooling down.
   */
  lemma RecoveryOutcome(cfg: Config, st: State, deciding: Gap, script: Script)
    requires DistinctIds(st.nodes) && NeedsRecovery(st)
    ensures var point := RecoveryPoint(cfg, st, deciding);
            var list := Listed(point, "", cfg.maxAttempts);
            var r := Recover(cfg, st, false, deciding, script);
            && DistinctIds(list) && (cfg.maxAttempts > 0 ==> |list| <= cfg.maxAttempts)
            && (st.snapshot.active != "" && deciding.elapsed < cfg.cooldown ==> st.snapshot.active !in Ids(list))
            && r.offers == st.offers + [Offer(point.clock, Ids(list))]
            && Tried(cfg, list, script, point.clock, r)
  {
    var point := RecoveryPoint(cfg, st, deciding);
    RecoveryList(cfg, st, deciding);
    TriedAll(cfg, Offering(point, "", cfg.maxAttempts), Listed(point, "", cfg.maxAttempts), script, true);
  }

  lemma {:induction false} LoopKeepsOffers(
    cfg: Config, st: State, candidates: seq<Node>, i: nat, script: Script, recovering: bool)
    requires i <= |candidates|
    ensures TryFrom(cfg, st, candidates, i, script, recovering).0.offers == st.offers
    decreases |candidates| - i
  {
    if i == |candidates| {
    } else {
      var shown := Show(st, AttemptPhase(recovering, i), candidates[i].id);
      ConnectCandidateMatches(cfg, shown, candidates[i], script(i));
      var (tried, ok) := ConnectCandidate(cfg, shown, candidates[i], script(i));
      if !ok {
        LoopKeepsOffers(cfg, CooldownNode(cfg, tried, candidates[i].id, script(i).error), candidates, i + 1, script, recovering);
      }
    }
  }
}
