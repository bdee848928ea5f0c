/**
 What each action of the server comes to, in terms of fields, offers and the trace of the tunnel: whom the operator's
 connect tries, when a health check gives the exit up, and what refreshes, lookups, probes and checks leave behind.
 */
module Handlers {
  import opened Prelude
  import opened Nodes
  import opened Failover
  import opened Ranking
  import opened Server
  import Co = Cooldowns
  import M = Monitor
  import T = Tunnel
  import G = Classify
  import Pool = ProbePool
  import Sorting

  // ------------------------------------------------------------------ dials in the trace

  predicate IsDial(h: T.Happening) {
    h.Up? || h.DialFailed? || h.Refused?
  }

  /** How often somebody called Connect on the tunnel. */
  function Dials(trace: seq<T.Happening>): nat {
    if trace == [] then 0 else Dials(trace[..|trace|-1]) + (if IsDial(trace[|trace|-1]) then 1 else 0)
  }

  /** The trace only grew, and sessions came up only for nodes of these IDs. */
  ghost predicate GrewFor(before: seq<T.Happening>, after: seq<T.Happening>, ids: seq<string>) {
    before <= after && forall k :: |before| <= k < |after| && after[k].Up? ==> after[k].id in ids
  }

  lemma DialsSnoc(trace: seq<T.Happening>, h: T.Happening)
    ensures Dials(trace + [h]) == Dials(trace) + (if IsDial(h) then 1 else 0)
  {
    assert (trace + [h])[..|trace|] == trace;
  }

  lemma PassFields(st: State, g: Gap)
    ensures Pass(st, g).offers == st.offers && Pass(st, g).nodes == st.nodes && Pass(st, g).snapshot == st.snapshot
    ensures Pass(st, g).clock == st.clock + g.elapsed && Pass(st, g).failures == st.failures
    ensures Pass(st, g).tunnel == if g.dies then None else st.tunnel
    ensures Pass(st, g).trace == if g.dies && st.tunnel.Some? then st.trace + [T.Died] else st.trace
  {
  }

  lemma DeathIsNoDial(trace: seq<T.Happening>)
    ensures Dials(trace + [T.Died]) == Dials(trace) && GrewFor(trace, trace + [T.Died], [])
  {
    DialsSnoc(trace, T.Died);
  }

  /** A gap costs its time and at most the session, which then died. */
  lemma PassTrace(st: State, g: Gap)
    ensures Dials(Pass(st, g).trace) == Dials(st.trace) && GrewFor(st.trace, Pass(st, g).trace, [])
    ensures Pass(st, g).offers == st.offers && Pass(st, g).nodes == st.nodes && Pass(st, g).snapshot == st.snapshot
    ensures Pass(st, g).clock == st.clock + g.elapsed && Pass(st, g).failures == st.failures
    ensures Pass(st, g).tunnel == if g.dies then None else st.tunnel
  {
    PassFields(st, g);
    DeathIsNoDial(st.trace);
  }

  lemma HappenTrace(st: State, h: T.Happening, ids: seq<string>)
    requires h.Up? ==> h.id in ids
    ensures Dials(Happen(st, h).trace) == Dials(st.trace) + (if IsDial(h) then 1 else 0)
    ensures GrewFor(st.trace, Happen(st, h).trace, ids)
  {
    DialsSnoc(st.trace, h);
  }

  lemma Grows(a: seq<T.Happening>, b: seq<T.Happening>, c: seq<T.Happening>, some: seq<string>, more: seq<string>)
    requires GrewFor(a, b, some) && GrewFor(b, c, more)
    requires forall id :: id in some ==> id in more
    ensures GrewFor(a, c, more)
  {
  }

  lemma {:induction false} DialsOfPrefix(a: seq<T.Happening>, b: seq<T.Happening>)
    requires a <= b
    ensures Dials(a) <= Dials(b)
  {
    if a == b {
    } else {
      assert a <= b[..|b|-1];
      DialsOfPrefix(a, b[..|b|-1]);
    }
  }

  /** Between two points nobody dials and no session comes up. */
  ghost predicate Quietly(a: seq<T.Happening>, b: seq<T.Happening>) {
    Dials(a) == Dials(b) && GrewFor(a, b, [])
  }

  lemma QuietPass(st: State, g: Gap)
    ensures Quietly(st.trace, Pass(st, g).trace)
  {
    PassTrace(st, g);
  }

  lemma QuietTwice(a: seq<T.Happening>, b: seq<T.Happening>, c: seq<T.Happening>)
    requires Quietly(a, b) && Quietly(b, c)
    ensures Quietly(a, c)
  {
    Grows(a, b, c, [], []);
  }

  lemma QuietCheck(up: State, node: Node, a: Attempt)
    ensures var checked := Pass(Show(up, Verifying, node.id), a.verifying);
            && Quietly(up.trace, Pass(Happen(checked, T.Down), a.after).trace)
            && Quietly(up.trace, Pass(Show(checked, Connected, node.id), a.after).trace)
  {
    var checked := Pass(Show(up, Verifying, node.id), a.verifying);
    QuietPass(Show(up, Verifying, node.id), a.verifying);
    HappenTrace(checked, T.Down, []);
    QuietTwice(up.trace, checked.trace, Happen(checked, T.Down).trace);
    QuietPass(Happen(checked, T.Down), a.after);
    QuietTwice(up.trace, Happen(checked, T.Down).trace, Pass(Happen(checked, T.Down), a.after).trace);
    QuietPass(Show(checked, Connected, node.id), a.after);
    QuietTwice(up.trace, checked.trace, Pass(Show(checked, Connected, node.id), a.after).trace);
  }

  /** One dial for `node` and nothing more. */
  ghost predicate OneDial(a: seq<T.Happening>, b: seq<T.Happening>, id: string) {
    Dials(b) == Dials(a) + 1 && GrewFor(a, b, [id])
  }

  lemma DialThenQuiet(a: seq<T.Happening>, b: seq<T.Happening>, c: seq<T.Happening>, d: seq<T.Happening>, id: string)
    requires Quietly(a, b) && OneDial(b, c, id) && Quietly(c, d)
    ensures OneDial(a, d, id)
  {
    Grows(a, b, c, [], [id]);
    Grows(a, c, d, [id], [id]);
  }

  lemma DialAndPass(st: State, before: Gap, h: T.Happening, after: Gap, id: string)
    requires IsDial(h) && (h.Up? ==> h.id == id)
    ensures OneDial(st.trace, Pass(Happen(Pass(st, before), h), after).trace, id)
  {
    var dialed := Pass(st, before);
    QuietPass(st, before);
    HappenTrace(dialed, h, [id]);
    QuietPass(Happen(dialed, h), after);
    DialThenQuiet(st.trace, dialed.trace, Happen(dialed, h).trace, Pass(Happen(dialed, h), after).trace, id);
  }

  lemma QuietAfterDial(a: seq<T.Happening>, b: seq<T.Happening>, c: seq<T.Happening>, id: string)
    requires OneDial(a, b, id) && Quietly(b, c)
    ensures OneDial(a, c, id)
  {
    Grows(a, b, c, [id], [id]);
  }

  /** One attempt is one dial, and can bring up only its own node. */
  lemma CandidateTrace(cfg: Config, st: State, node: Node, a: Attempt)
    ensures OneDial(st.trace, ConnectCandidate(cfg, st, node, a).0.trace, node.id)
  {
    var dialed := Pass(st, a.dialing);
    if dialed.tunnel.Some? {
      DialAndPass(st, a.dialing, T.Refused, a.after, node.id);
    } else if !a.connects {
      DialAndPass(st, a.dialing, T.DialFailed, a.after, node.id);
    } else {
      DialAndPass(st, a.dialing, T.Up(node.id), a.settling, node.id);
      var up := Pass(Happen(dialed, T.Up(node.id)), a.settling);
      UpTrace(cfg, st, up, node, a);
    }
  }

  lemma UpTrace(cfg: Config, st: State, up: State, node: Node, a: Attempt)
    requires OneDial(st.trace, up.trace, node.id)
    ensures OneDial(st.trace, Pass(Show(up, Connected, node.id), a.after).trace, node.id)
    ensures var checked := Pass(Show(up, Verifying, node.id), a.verifying);
            && OneDial(st.trace, Pass(Happen(checked, T.Down), a.after).trace, node.id)
            && OneDial(st.trace, Pass(Show(checked, Connected, node.id), a.after).trace, node.id)
  {
    var checked := Pass(Show(up, Verifying, node.id), a.verifying);
    QuietPass(Show(up, Connected, node.id), a.after);
    QuietAfterDial(st.trace, up.trace, Pass(Show(up, Connected, node.id), a.after).trace, node.id);
    QuietCheck(up, node, a);
    QuietAfterDial(st.trace, up.trace, Pass(Happen(checked, T.Down), a.after).trace, node.id);
    QuietAfterDial(st.trace, up.trace, Pass(Show(checked, Connected, node.id), a.after).trace, node.id);
  }

  /** The loop dials the candidates one after the other until one works, and can bring up no other node. */
  lemma {:induction false} LoopTrace(
    cfg: Config, st: State, candidates: seq<Node>, i: nat, script: Script, recovering: bool)
    requires i <= |candidates|
    ensures var (r, result) := TryFrom(cfg, st, candidates, i, script, recovering);
            && (result.Some? ==> i <= result.value < |candidates|)
            && Dials(r.trace) == Dials(st.trace) + (if result.Some? then result.value + 1 else |candidates|) - i
            && GrewFor(st.trace, r.trace, Ids(candidates))
    decreases |candidates| - i
  {
    if i == |candidates| {
    } else {
      var shown := Show(st, AttemptPhase(recovering, i), candidates[i].id);
      CandidateTrace(cfg, shown, candidates[i], script(i));
      var (tried, ok) := ConnectCandidate(cfg, shown, candidates[i], script(i));
      assert Ids(candidates)[i] == candidates[i].id;
      if !ok {
        var next := CooldownNode(cfg, tried, candidates[i].id, script(i).error);
        LoopTrace(cfg, next, candidates, i + 1, script, recovering);
        var (r, result) := TryFrom(cfg, next, candidates, i + 1, script, recovering);
        Grows(st.trace, next.trace, r.trace, [candidates[i].id], Ids(candidates));
      }
    }
  }

  lemma TryBestTrace(cfg: Config, st: State, requestedId: string, maxAttempts: int, script: Script)
    ensures var r, list := TryBest(cfg, st, requestedId, maxAttempts, script), Listed(st, requestedId, maxAttempts);
            && r.offers == st.offers + [Offer(st.clock, Ids(list))]
            && Dials(r.trace) <= Dials(st.trace) + |list| && GrewFor(st.trace, r.trace, Ids(list))
            && (list != [] ==> Dials(r.trace) > Dials(st.trace))
  {
    var list := Listed(st, requestedId, maxAttempts);
    Co.LoopKeepsOffers(cfg, Offering(st, requestedId, maxAttempts), list, 0, script, false);
    LoopTrace(cfg, Offering(st, requestedId, maxAttempts), list, 0, script, false);
  }

  // ------------------------------------------------------------------ connect by the operator

  /** A session is live when the handler looks. */
  predicate StillLive(before: State, action: Action) {
    before.tunnel.Some? && !action.before.dies
  }

  /** With a live session nobody is dialled: the handler shows the session and leaves it to its own death. */
  lemma ConnectOverLive(cfg: Config, before: State, action: Action)
    requires action.Connect? && StillLive(before, action)
    ensures var r := Perform(cfg, before, action);
            && r.offers == before.offers && r.nodes == before.nodes && Dials(r.trace) == Dials(before.trace)
            && r.tunnel == (if action.deciding.dies then None else before.tunnel)
            && r.snapshot.phase == Connected
            && (before.tunnel.value != "" ==> r.snapshot.active == before.tunnel.value)
  {
    PassTrace(before, action.before);
    var st := Pass(before, action.before);
    PassTrace(st.(snapshot := MaintenanceSnapshot(st.snapshot, st.tunnel)), action.deciding);
  }

  lemma ConnectWithoutNodes(cfg: Config, before: State, action: Action)
    requires action.Connect? && !StillLive(before, action) && before.nodes == []
    ensures var r := Perform(cfg, before, action);
            && r.offers == before.offers && r.nodes == [] && r.snapshot == before.snapshot && r.tunnel.None?
            && Dials(r.trace) == Dials(before.trace)
  {
    PassTrace(before, action.before);
  }

  /** The state in which a connect computes its candidates. */
  function Deciding(before: State, action: Action): State
    requires action.Connect?
  {
    Pass(Pass(before, action.before), action.deciding)
  }

  lemma DecidingIs(before: State, action: Action)
    requires action.Connect?
    ensures var st := Deciding(before, action);
            && st.clock == before.clock + action.before.elapsed + action.deciding.elapsed && st.nodes == before.nodes
            && st.offers == before.offers && Quietly(before.trace, st.trace)
  {
    PassTrace(before, action.before);
    PassTrace(Pass(before, action.before), action.deciding);
    QuietTwice(before.trace, Pass(before, action.before).trace, Deciding(before, action).trace);
  }

  lemma IdleConnectIs(cfg: Config, before: State, action: Action)
    requires action.Connect? && !StillLive(before, action) && before.nodes != []
    ensures Perform(cfg, before, action) ==
            TryBest(cfg, Deciding(before, action), action.requestedId,
                    if action.requestedId == "" && cfg.failoverEnabled then cfg.maxAttempts else 1, action.script)
  {
  }

  /** Whom a connect may try at time `now`. */
  ghost predicate AsAsked(cfg: Config, nodes: seq<Node>, requestedId: string, now: int, ids: seq<string>) {
    && (requestedId != "" ==>
          && |ids| <= 1 && (forall id :: id in ids ==> id == requestedId)
          && (ids != [] <==> exists n :: n in nodes && n.id == requestedId && Usable(n, now)))
    && (requestedId == "" ==>
          && (!cfg.failoverEnabled ==> |ids| <= 1)
          && (cfg.failoverEnabled && cfg.maxAttempts > 0 ==> |ids| <= cfg.maxAttempts)
          && (ids != [] <==> exists n :: n in nodes && Usable(n, now)))
  }

  lemma RequestedAsAsked(cfg: Config, nodes: seq<Node>, id: string, now: int, ids: seq<string>)
    requires id != "" && ids == Ids(Candidates(nodes, id, 1, now))
    ensures AsAsked(cfg, nodes, id, now, ids)
  {
    var list := Candidates(nodes, id, 1, now);
    RequestedIff(nodes, id, 1, now);
    assert forall i :: 0 <= i < |list| ==> list[i] in list && ids[i] == list[i].id;
  }

  lemma AutomaticAsAsked(cfg: Config, nodes: seq<Node>, now: int, ids: seq<string>)
    requires ids == Ids(Candidates(nodes, "", if cfg.failoverEnabled then cfg.maxAttempts else 1, now))
    ensures AsAsked(cfg, nodes, "", now, ids)
  {
    AutomaticList(nodes, if cfg.failoverEnabled then cfg.maxAttempts else 1, now);
  }

  /**
   A connect that names a node tries that node and no other, and tries it if the cache holds it usable; one that
   names none tries at most one node without failover, and with it as many as allowed.
   */
  lemma ConnectTriesWhatIsAsked(cfg: Config, before: State, action: Action) returns (ids: seq<string>)
    requires action.Connect? && !StillLive(before, action) && before.nodes != []
    ensures var r, now := Perform(cfg, before, action), Deciding(before, action).clock;
            && r.offers == before.offers + [Offer(now, ids)] && AsAsked(cfg, before.nodes, action.requestedId, now, ids)
            && GrewFor(before.trace, r.trace, ids) && Dials(r.trace) <= Dials(before.trace) + |ids|
  {
    var st := Deciding(before, action);
    var limit := if action.requestedId == "" && cfg.failoverEnabled then cfg.maxAttempts else 1;
    ids := Ids(Listed(st, action.requestedId, limit));
    DecidingIs(before, action);
    IdleConnectIs(cfg, before, action);
    TryBestTrace(cfg, st, action.requestedId, limit, action.script);
    Grows(before.trace, st.trace, Perform(cfg, before, action).trace, [], ids);
    if action.requestedId != "" {
      RequestedAsAsked(cfg, before.nodes, action.requestedId, st.clock, ids);
    } else {
      AutomaticAsAsked(cfg, before.nodes, st.clock, ids);
    }
  }

  lemma AutomaticList(nodes: seq<Node>, limit: int, now: int)
    ensures var list := Candidates(nodes, "", limit, now);
            && (limit > 0 ==> |list| <= limit)
            && (list != [] <==> exists n :: n in nodes && Usable(n, now))
            && (limit <= 0 ==> forall n :: n in nodes && Usable(n, now) ==> n in list)
  {
    var s := Sorting.Sort(Before, Filter(nodes, now));
    FilterElements(nodes, now);
    Sorting.SortPermutes(Before, Filter(nodes, now));
    assert s != [] ==> s[0] in s;
  }

  /** And it ends Connected to the first of them that works, or in Error with all of them cooling. */
  lemma ConnectOutcome(cfg: Config, before: State, action: Action)
    requires action.Connect? && !StillLive(before, action) && before.nodes != [] && DistinctIds(before.nodes)
    ensures var st := Deciding(before, action);
            var limit := if action.requestedId == "" && cfg.failoverEnabled then cfg.maxAttempts else 1;
            var list := Listed(st, action.requestedId, limit);
            list != [] ==> Co.Tried(cfg, list, action.script, st.clock, Perform(cfg, before, action))
  {
    var st := Deciding(before, action);
    var limit := if action.requestedId == "" && cfg.failoverEnabled then cfg.maxAttempts else 1;
    IdleConnectIs(cfg, before, action);
    DecidingIs(before, action);
    Co.TriedAll(cfg, Offering(st, action.requestedId, limit), Listed(st, action.requestedId, limit), action.script, false);
  }

  // ------------------------------------------------------------------ automatic connection

  /** A failed fetch: the cache stays, nobody is dialled, an error is shown. */
  lemma AutoWithoutFetch(cfg: Config, before: State, action: Action)
    requires action.AutoConnect? && action.fetch.Err?
    ensures var r := Perform(cfg, before, action);
            && r.nodes == before.nodes && r.offers == before.offers && r.snapshot == Snapshot(Error, "")
            && Dials(r.trace) == Dials(before.trace)
  {
    PassTrace(before, action.before);
    PassTrace(Show(Pass(before, action.before), FetchingNodes, ""), action.fetching);
  }

  lemma AutoReadyTrace(cfg: Config, st: State, action: Action)
    requires action.AutoConnect? && action.fetch.Ok?
    ensures var r := AutoReady(cfg, st, action.fetch.value, action.fetching, action.reply, action.dials,
                               action.probing, action.deciding);
            && r.offers == st.offers && Dials(r.trace) == Dials(st.trace) && GrewFor(st.trace, r.trace, [])
            && r.clock == st.clock + action.fetching.elapsed + action.probing.elapsed + action.deciding.elapsed
  {
    var waited := Pass(Show(st, FetchingNodes, ""), action.fetching);
    PassTrace(Show(st, FetchingNodes, ""), action.fetching);
    PassTrace(Show(waited, ProbingNodes, ""), action.probing);
    var probed := AutoProbed(st, action.fetching, action.probing);
    Grows(st.trace, waited.trace, probed.trace, [], []);
    var nodes := AutoNodes(cfg, st.nodes, action.fetch.value, action.reply, action.dials, probed.clock);
    PassTrace(probed.(nodes := nodes, snapshot := INITIAL), action.deciding);
    Grows(st.trace, probed.trace, Pass(probed.(nodes := nodes, snapshot := INITIAL), action.deciding).trace, [], []);
  }

  /** A fetch that succeeds: one list within the limit, of one node where no limit is set, and only its nodes come up. */
  lemma AutoTriesWithinLimit(cfg: Config, before: State, action: Action)
    requires action.AutoConnect? && action.fetch.Ok?
    ensures var r := Perform(cfg, before, action);
            && |r.offers| == |before.offers| + 1 && r.offers[..|before.offers|] == before.offers
            && var ids := r.offers[|before.offers|].ids;
            && |ids| <= (if cfg.maxAttempts <= 0 then 1 else cfg.maxAttempts)
            && GrewFor(before.trace, r.trace, ids) && Dials(r.trace) <= Dials(before.trace) + |ids|
  {
    var st := Pass(before, action.before);
    PassTrace(before, action.before);
    AutoReadyTrace(cfg, st, action);
    var ready := AutoReady(cfg, st, action.fetch.value, action.fetching, action.reply, action.dials,
                           action.probing, action.deciding);
    var limit := if cfg.maxAttempts <= 0 then 1 else cfg.maxAttempts;
    TryBestTrace(cfg, ready, "", limit, action.script);
    AutomaticList(ready.nodes, limit, ready.clock);
    Grows(before.trace, st.trace, ready.trace, [], []);
    Grows(before.trace, ready.trace, Perform(cfg, before, action).trace, [], Ids(Listed(ready, "", limit)));
  }

  /** When the probe of an automatic connection ends. */
  function JudgedAt(before: State, action: Action): int
    requires action.AutoConnect?
  {
    AutoProbed(Pass(before, action.before), action.fetching, action.probing).clock
  }

  lemma JudgedAtIs(before: State, action: Action)
    requires action.AutoConnect?
    ensures JudgedAt(before, action)
            == before.clock + action.before.elapsed + action.fetching.elapsed + action.probing.elapsed
  {
  }

  lemma AutoReadyIs(cfg: Config, before: State, action: Action) returns (ready: State)
    requires action.AutoConnect? && action.fetch.Ok?
    ensures ready == AutoReady(cfg, Pass(before, action.before), action.fetch.value, action.fetching, action.reply,
                               action.dials, action.probing, action.deciding)
    ensures ready.clock == JudgedAt(before, action) + action.deciding.elapsed && ready.offers == before.offers
    ensures ready.nodes == AutoNodes(cfg, before.nodes, action.fetch.value, action.reply, action.dials, JudgedAt(before, action))
  {
    ready := AutoReady(cfg, Pass(before, action.before), action.fetch.value, action.fetching, action.reply, action.dials,
                       action.probing, action.deciding);
  }

  lemma AutoOffer(cfg: Config, before: State, action: Action) returns (cache: seq<Node>, now: int)
    requires action.AutoConnect? && action.fetch.Ok?
    ensures cache == AutoNodes(cfg, before.nodes, action.fetch.value, action.reply, action.dials, JudgedAt(before, action))
    ensures now == JudgedAt(before, action) + action.deciding.elapsed
    ensures Perform(cfg, before, action).offers
            == before.offers
               + [Offer(now, Ids(Candidates(cache, "", if cfg.maxAttempts <= 0 then 1 else cfg.maxAttempts, now)))]
  {
    var ready := AutoReadyIs(cfg, before, action);
    cache, now := ready.nodes, ready.clock;
    TryBestTrace(cfg, ready, "", if cfg.maxAttempts <= 0 then 1 else cfg.maxAttempts, action.script);
  }

  /**
   The list is computed from the fetched nodes, graded if grading is on, then probed, then given the cooldowns that
   the previous cache held and that had not ended when the probe did.
   */
  lemma AutoListsPrepared(cfg: Config, before: State, action: Action) returns (cache: seq<Node>, now: int)
    requires action.AutoConnect? && action.fetch.Ok?
    ensures cfg.classifierEnabled ==>
              cache == PreserveCooldowns(Pool.Probed(Batch(G.Classified(action.fetch.value, action.reply), action.dials)),
                                         before.nodes, JudgedAt(before, action))
    ensures !cfg.classifierEnabled ==>
              cache == PreserveCooldowns(Pool.Probed(Batch(action.fetch.value, action.dials)),
                                         before.nodes, JudgedAt(before, action))
    ensures JudgedAt(before, action)
            == before.clock + action.before.elapsed + action.fetching.elapsed + action.probing.elapsed
    ensures now == JudgedAt(before, action) + action.deciding.elapsed
    ensures Perform(cfg, before, action).offers
            == before.offers
               + [Offer(now, Ids(Candidates(cache, "", if cfg.maxAttempts <= 0 then 1 else cfg.maxAttempts, now)))]
  {
    JudgedAtIs(before, action);
    cache, now := AutoOffer(cfg, before, action);
  }

  // ------------------------------------------------------------------ health ticks

  /** The monitor looks at a running exit. */
  predicate Watches(cfg: Config, before: State, action: Action)
    requires action.HealthTick?
  {
    cfg.verifyEnabled && before.snapshot.phase == Connected && before.tunnel.Some? && !action.before.dies
  }

  /** The active node is cached and verified, or verification erred and the exit reaches the Internet all the same. */
  predicate ExitPasses(st: State, verdict: Verdict, reachable: bool) {
    && st.snapshot.active != "" && (exists i :: 0 <= i < |st.nodes| && st.nodes[i].id == st.snapshot.active)
    && (verdict == Passed || (verdict == Failed && reachable))
  }

  /** How many failures in a row give the exit up. */
  function Patience(configured: int): nat {
    if configured <= 0 then 2 else configured
  }

  /** Nothing but the counter and the time changes, and the session only by its own death. */
  ghost predicate LeavesExit(before: State, r: State, failures: nat, dies: bool) {
    && r.failures == failures && r.nodes == before.nodes && r.snapshot == before.snapshot && r.offers == before.offers
    && r.tunnel == (if dies then None else before.tunnel)
    && r.trace == (if dies && before.tunnel.Some? then before.trace + [T.Died] else before.trace)
  }

  lemma UnwatchedTick(cfg: Config, before: State, action: Action)
    requires action.HealthTick? && !Watches(cfg, before, action)
    ensures LeavesExit(before, Perform(cfg, before, action), 0, action.before.dies)
  {
  }

  /** A check that passes clears the counter. */
  lemma PassedTick(cfg: Config, before: State, action: Action)
    requires action.HealthTick? && Watches(cfg, before, action) && ExitPasses(before, action.verdict, action.reachable)
    ensures LeavesExit(before, Perform(cfg, before, action), 0, action.checking.dies)
  {
  }

  /** One that does not raises it by one while patience lasts. */
  lemma FailedTick(cfg: Config, before: State, action: Action)
    requires action.HealthTick? && Watches(cfg, before, action) && !ExitPasses(before, action.verdict, action.reachable)
    requires before.failures + 1 < Patience(cfg.failureThreshold)
    ensures LeavesExit(before, Perform(cfg, before, action), before.failures + 1, action.checking.dies)
  {
  }

  /** And when patience is over the exit is dropped, the counter cleared and, unless cancelled, one recovery made. */
  lemma LastTick(cfg: Config, before: State, action: Action)
    requires action.HealthTick? && Watches(cfg, before, action) && !ExitPasses(before, action.verdict, action.reachable)
    requires before.failures + 1 >= Patience(cfg.failureThreshold)
    ensures var r := Perform(cfg, before, action);
            var checked := if action.checking.dies then before.trace + [T.Died] else before.trace;
            && checked + [T.Down] <= r.trace && r.failures == 0
            && |r.offers| == |before.offers| + (if action.cancelled then 0 else 1)
  {
    var checked := Checked(cfg, Pass(before, action.before), action.verdict, action.reachable, action.checking);
    var down := Happen(checked, T.Down);
    RecoverTrace(cfg, down, action.cancelled, action.deciding, action.script);
  }

  lemma RecoverTrace(cfg: Config, st: State, cancelled: bool, deciding: Gap, script: Script)
    ensures var r := Recover(cfg, st, cancelled, deciding, script);
            && st.trace <= r.trace && r.failures == st.failures
            && |r.offers| == |st.offers| + (if NeedsRecovery(st) && !cancelled then 1 else 0)
  {
    if NeedsRecovery(st) && !cancelled {
      var cooled := if st.snapshot.active != "" then CooldownNode(cfg, st, st.snapshot.active, LOST_NOTE) else st;
      var later := Pass(cooled, deciding);
      PassTrace(cooled, deciding);
      var list := Listed(later, "", cfg.maxAttempts);
      LoopTrace(cfg, Offering(later, "", cfg.maxAttempts), list, 0, script, true);
      Co.LoopKeepsOffers(cfg, Offering(later, "", cfg.maxAttempts), list, 0, script, true);
      LoopKeepsFailures(cfg, Offering(later, "", cfg.maxAttempts), list, 0, script, true);
    }
  }

  lemma {:induction false} LoopKeepsFailures(
    cfg: Config, st: State, candidates: seq<Node>, i: nat, script: Script, recovering: bool)
    requires i <= |candidates|
    ensures TryFrom(cfg, st, candidates, i, script, recovering).0.failures == st.failures
    decreases |candidates| - i
  {
    if i == |candidates| {
    } else {
      var shown := Show(st, AttemptPhase(recovering, i), candidates[i].id);
      ConnectCandidateMatches(cfg, shown, candidates[i], script(i));
      var (tried, ok) := ConnectCandidate(cfg, shown, candidates[i], script(i));
      if !ok {
        LoopKeepsFailures(cfg, CooldownNode(cfg, tried, candidates[i].id, script(i).error), candidates, i + 1, script, recovering);
      }
    }
  }

  /** A health tick during which nothing dies and the check does not pass. */
  predicate BadTick(st: State, action: Action) {
    && action.HealthTick? && !action.before.dies && !action.checking.dies
    && !ExitPasses(st, action.verdict, action.reachable)
  }

  /** While patience lasts, each bad tick is counted and the exit goes on running. */
  lemma {:induction false} BadTicksCount(cfg: Config, st: State, ticks: seq<Action>)
    requires cfg.verifyEnabled && st.snapshot.phase == Connected && st.tunnel.Some? && st.failures == 0
    requires forall i :: 0 <= i < |ticks| ==> BadTick(st, ticks[i])
    requires |ticks| < Patience(cfg.failureThreshold)
    ensures LeavesExit(st, Run(cfg, st, ticks), |ticks|, false)
  {
    if ticks == [] {
    } else {
      var front, last := ticks[..|ticks|-1], ticks[|ticks|-1];
      BadTicksCount(cfg, st, front);
      assert BadTick(st, last);
      FailedTick(cfg, Run(cfg, st, front), last);
    }
  }

  /** As many bad ticks in a row as patience allows drop a running exit, and no fewer do. */
  lemma BadTicksDropExit(cfg: Config, st: State, ticks: seq<Action>)
    requires cfg.verifyEnabled && st.snapshot.phase == Connected && st.tunnel.Some? && st.failures == 0
    requires forall i :: 0 <= i < |ticks| ==> BadTick(st, ticks[i])
    requires 0 < |ticks| <= Patience(cfg.failureThreshold)
    ensures var r := Run(cfg, st, ticks);
            if |ticks| == Patience(cfg.failureThreshold) then st.trace + [T.Down] <= r.trace && r.failures == 0
            else r.trace == st.trace && r.failures == |ticks|
  {
    var front, last := ticks[..|ticks|-1], ticks[|ticks|-1];
    if |ticks| < Patience(cfg.failureThreshold) {
      BadTicksCount(cfg, st, ticks);
    } else {
      BadTicksCount(cfg, st, front);
      assert BadTick(st, last);
      LastTick(cfg, Run(cfg, st, front), last);
    }
  }

  // ------------------------------------------------------------------ transport ticks

  /** A transport tick recovers exactly when an exit is shown that is no longer there. */
  lemma TransportTickOutcome(cfg: Config, before: State, action: Action)
    requires action.TransportTick?
    ensures var r := Perform(cfg, before, action);
            var lost := before.snapshot.phase == Connected && (before.tunnel.None? || action.before.dies);
            if lost then r.failures == 0 && |r.offers| == |before.offers| + (if action.cancelled then 0 else 1)
            else LeavesExit(before, r, before.failures, action.before.dies)
  {
    RecoverTrace(cfg, Pass(before, action.before).(failures := 0), action.cancelled, action.deciding, action.script);
  }

  // ------------------------------------------------------------------ the other handlers

  /** The state of a refresh when its fetch is over. */
  function FetchOver(before: State, action: Action): State
    requires action.RefreshNodes?
  {
    Pass(Show(Pass(before, action.before), FetchingNodes, ""), action.fetching)
  }

  lemma FetchOverIs(before: State, action: Action)
    requires action.RefreshNodes?
    ensures FetchOver(before, action).clock == before.clock + action.before.elapsed + action.fetching.elapsed
    ensures Quietly(before.trace, FetchOver(before, action).trace)
  {
    PassTrace(before, action.before);
    PassTrace(Show(Pass(before, action.before), FetchingNodes, ""), action.fetching);
    QuietTwice(before.trace, Pass(before, action.before).trace, FetchOver(before, action).trace);
  }

  /**
   A refresh whose fetch failed leaves the cache; one that succeeded replaces it, deadlines being looked at when the
   fetch is over. Nobody is dialled.
   */
  lemma RefreshOutcome(cfg: Config, before: State, action: Action)
    requires action.RefreshNodes?
    ensures var r := Perform(cfg, before, action);
            && r.nodes == (if action.fetch.Err? then before.nodes
                           else PreserveCooldowns(action.fetch.value, before.nodes, FetchOver(before, action).clock))
            && r.offers == before.offers && r.failures == before.failures
  {
  }

  lemma RefreshDialsNobody(cfg: Config, before: State, action: Action)
    requires action.RefreshNodes?
    ensures Quietly(before.trace, Perform(cfg, before, action).trace)
  {
    var waited := FetchOver(before, action);
    var st := Pass(before, action.before);
    var shown := waited.(snapshot := MaintenanceSnapshot(st.snapshot, waited.tunnel));
    var kept := if action.fetch.Err? then shown
                else shown.(nodes := PreserveCooldowns(action.fetch.value, st.nodes, waited.clock));
    FetchOverIs(before, action);
    QuietPass(kept, action.after);
    QuietTwice(before.trace, waited.trace, Pass(kept, action.after).trace);
  }

  /** A lookup replaces the cache by what the classifier makes of it, a probe by what the probe does; neither dials the tunnel. */
  lemma MaintainOutcome(cfg: Config, before: State, action: Action)
    requires action.ClassifyNodes? || action.ProbeNodes?
    ensures var r := Perform(cfg, before, action);
            && r.offers == before.offers && r.failures == before.failures
            && (before.nodes == [] ==> r.nodes == [] && r.snapshot == before.snapshot)
            && (before.nodes != [] && action.ClassifyNodes? ==> r.nodes == G.Classified(before.nodes, action.reply))
            && (before.nodes != [] && action.ProbeNodes? ==> r.nodes == Pool.Probed(Batch(before.nodes, action.dials)))
  {
  }

  lemma MaintainDialsNobody(cfg: Config, before: State, action: Action)
    requires action.ClassifyNodes? || action.ProbeNodes?
    ensures Quietly(before.trace, Perform(cfg, before, action).trace)
  {
    var st := Pass(before, action.before);
    QuietPass(before, action.before);
    var working := if action.ClassifyNodes? then action.asking else action.probing;
    var result := if action.ClassifyNodes? then G.Classified(st.nodes, action.reply) else Pool.Probed(Batch(st.nodes, action.dials));
    var waited := Pass(Show(st, ProbingNodes, ""), working);
    QuietPass(Show(st, ProbingNodes, ""), working);
    QuietTwice(before.trace, st.trace, waited.trace);
    var done := waited.(nodes := result, snapshot := MaintenanceSnapshot(st.snapshot, waited.tunnel));
    QuietPass(done, action.after);
    QuietTwice(before.trace, waited.trace, Pass(done, action.after).trace);
  }

  /** The operator's check of a cached active node: its verdict decides the phase; an error of the check changes nothing. */
  lemma VerifyOutcome(cfg: Config, before: State, action: Action)
    requires action.VerifyExit?
    ensures var r := Perform(cfg, before, action);
            var active := before.snapshot.active;
            var cached := active != "" && exists i :: 0 <= i < |before.nodes| && before.nodes[i].id == active;
            && r.snapshot.active == before.snapshot.active && r.nodes == before.nodes && r.offers == before.offers
            && (cached && action.verdict == Passed ==> r.snapshot.phase == Connected)
            && (cached && action.verdict == Refuted ==> r.snapshot.phase == Error)
            && (!cached || action.verdict == Failed ==> r.snapshot.phase == before.snapshot.phase)
            && (r.tunnel == before.tunnel || r.tunnel.None?) && r.failures == before.failures
  {
  }

  /** Disconnect drops any session and shows nothing; the cache stays. */
  lemma DisconnectOutcome(cfg: Config, before: State, action: Action)
    requires action.Disconnect?
    ensures var r := Perform(cfg, before, action);
            && r.tunnel.None? && r.snapshot == Snapshot(Idle, "") && r.nodes == before.nodes && r.offers == before.offers
            && r.trace == (if before.tunnel.Some? && action.before.dies then before.trace + [T.Died] else before.trace) + [T.Down]
  {
  }
}
