/**
 What the purity score of a cached node says about its grade. A lookup without a usable record takes the grade of
 a strict home away and leaves its 90 points, so the two can part; this module says when, over every run.
 */
module Scores {
  import opened Prelude
  import opened Nodes
  import opened Failover
  import opened Server
  import T = Tunnel
  import C = Classify
  import P = Probe
  import Pool = ProbePool
  import Sorting
  import Source
  import Text

  /** What the last answered lookup since the last fetch said about an address. */
  datatype Lookup = NotAsked | Found | Missing

  function Answer(records: seq<C.Record>, ip: string): Lookup {
    if ip in C.ByIp(records) && C.ByIp(records)[ip].success then Found else Missing
  }

  /** `before` is what was known when the run began, such as from an earlier run whose cache was restored. */
  function LastLookup(cfg: Config, before: string -> Lookup, actions: seq<Action>, ip: string): Lookup {
    if actions == [] then before(ip)
    else
      var earlier := LastLookup(cfg, before, actions[..|actions|-1], ip);
      match actions[|actions|-1]
      case RefreshNodes(_, fetch, _, _) => if fetch.Ok? then NotAsked else earlier
      case ClassifyNodes(_, reply, _, _) => if reply.Some? then Answer(reply.value, ip) else earlier
      case AutoConnect(_, fetch, _, reply, _, _, _, _) =>
        if fetch.Err? then earlier
        else if cfg.classifierEnabled && reply.Some? then Answer(reply.value, ip)
        else NotAsked
      case _ => earlier
  }

  predicate Explained(n: Node, lookup: Lookup) {
    match lookup
    case NotAsked => n.grade == Candidate && n.purityScore == 0
    case Found => n.grade == StrictHome <==> n.purityScore == 90
    case Missing => n.grade == Candidate
  }

  ghost predicate AllExplained(nodes: seq<Node>, lookup: string -> Lookup) {
    forall i :: 0 <= i < |nodes| ==> Explained(nodes[i], lookup(nodes[i].ip))
  }

  ghost predicate AllFresh(nodes: seq<Node>) {
    forall i :: 0 <= i < |nodes| ==> Source.Fresh(nodes[i])
  }

  /** A fetch brings fetched nodes. */
  ghost predicate FetchesFresh(action: Action) {
    match action
    case RefreshNodes(_, fetch, _, _) => fetch.Ok? ==> AllFresh(fetch.value)
    case AutoConnect(_, fetch, _, _, _, _, _, _) => fetch.Ok? ==> AllFresh(fetch.value)
    case _ => true
  }

  // ------------------------------------------------------------------ what leaves the verdicts alone

  lemma {:induction false} MarkKeepsGrades(nodes: seq<Node>, id: string, message: string, cooldown: int, now: int)
    ensures SameGrades(nodes, MarkFailure(nodes, id, message, cooldown, now))
  {
    if nodes == [] {
    } else if nodes[0].id != id {
      MarkKeepsGrades(nodes[1..], id, message, cooldown, now);
      assert nodes == [nodes[0]] + nodes[1..];
    }
  }

  lemma {:induction false} LoopKeepsGrades(
    cfg: Config, st: State, candidates: seq<Node>, i: nat, script: Script, recovering: bool)
    requires i <= |candidates|
    ensures SameGrades(st.nodes, TryFrom(cfg, st, candidates, i, script, recovering).0.nodes)
    decreases |candidates| - i
  {
    if i == |candidates| {
    } else {
      var shown := Show(st, AttemptPhase(recovering, i), candidates[i].id);
      ConnectCandidateMatches(cfg, shown, candidates[i], script(i));
      var (tried, ok) := ConnectCandidate(cfg, shown, candidates[i], script(i));
      if !ok {
        MarkKeepsGrades(tried.nodes, candidates[i].id, script(i).error, cfg.cooldown, tried.clock);
        LoopKeepsGrades(cfg, CooldownNode(cfg, tried, candidates[i].id, script(i).error), candidates, i + 1, script, recovering);
      }
    }
  }

  lemma TryBestKeepsGrades(cfg: Config, st: State, requestedId: string, maxAttempts: int, script: Script)
    ensures SameGrades(st.nodes, TryBest(cfg, st, requestedId, maxAttempts, script).nodes)
  {
    LoopKeepsGrades(cfg, Offering(st, requestedId, maxAttempts), Listed(st, requestedId, maxAttempts), 0, script, false);
  }

  lemma RecoverKeepsGrades(cfg: Config, st: State, cancelled: bool, deciding: Gap, script: Script)
    ensures SameGrades(st.nodes, Recover(cfg, st, cancelled, deciding, script).nodes)
  {
    if NeedsRecovery(st) && !cancelled {
      MarkKeepsGrades(st.nodes, st.snapshot.active, LOST_NOTE, cfg.cooldown, st.clock);
      var cooled := if st.snapshot.active != "" then CooldownNode(cfg, st, st.snapshot.active, LOST_NOTE) else st;
      var later := Pass(cooled, deciding);
      LoopKeepsGrades(cfg, Offering(later, "", cfg.maxAttempts), Listed(later, "", cfg.maxAttempts), 0, script, true);
    }
  }

  /** Actions that neither fetch nor look anything up. */
  predicate NoVerdict(action: Action) {
    match action
    case RefreshNodes(_, fetch, _, _) => fetch.Err?
    case AutoConnect(_, fetch, _, _, _, _, _, _) => fetch.Err?
    case ClassifyNodes(_, _, _, _) => false
    case _ => true
  }

  lemma OthersKeepGrades(cfg: Config, before: State, action: Action)
    requires NoVerdict(action)
    ensures SameGrades(before.nodes, Perform(cfg, before, action).nodes)
  {
    ActKeepsGrades(cfg, Pass(before, action.before), action);
  }

  lemma ProbeKeepsGrades(st: State, dials: nat -> seq<P.Dial>, probing: Gap, after: Gap)
    ensures SameGrades(st.nodes, Maintain(st, Pool.Probed(Batch(st.nodes, dials)), probing, after).nodes)
  {
    Pool.ProbedKeeps(Batch(st.nodes, dials));
  }

  lemma HealthKeepsGrades(
    cfg: Config, st: State, verdict: Verdict, reachable: bool, checking: Gap, cancelled: bool,
    deciding: Gap, script: Script)
    ensures SameGrades(st.nodes, Health(cfg, st, verdict, reachable, checking, cancelled, deciding, script).nodes)
  {
    RecoverKeepsGrades(cfg, Happen(Checked(cfg, st, verdict, reachable, checking), T.Down), cancelled, deciding, script);
  }

  lemma ActKeepsGrades(cfg: Config, st: State, action: Action)
    requires NoVerdict(action)
    ensures SameGrades(st.nodes, Act(cfg, st, action).nodes)
  {
    match action
    case ProbeNodes(_, dials, probing, after) => ProbeKeepsGrades(st, dials, probing, after);
    case Connect(_, requestedId, deciding, script) =>
      var limit := if requestedId == "" && cfg.failoverEnabled then cfg.maxAttempts else 1;
      TryBestKeepsGrades(cfg, Pass(st, deciding), requestedId, limit, script);
    case TransportTick(_, cancelled, deciding, script) =>
      RecoverKeepsGrades(cfg, st.(failures := 0), cancelled, deciding, script);
    case HealthTick(_, verdict, reachable, checking, cancelled, deciding, script) =>
      HealthKeepsGrades(cfg, st, verdict, reachable, checking, cancelled, deciding, script);
    case _ =>
  }

  // ------------------------------------------------------------------ what changes them

  lemma ClassifyExplains(nodes: seq<Node>, records: seq<C.Record>)
    ensures AllExplained(C.Classified(nodes, Some(records)), ip => Answer(records, ip))
  {
  }

  lemma SameGradesExplained(a: seq<Node>, b: seq<Node>, lookup: string -> Lookup)
    requires SameGrades(a, b) && AllExplained(a, lookup)
    ensures AllExplained(b, lookup)
  {
  }

  function AutoLookup(cfg: Config, reply: Option<seq<C.Record>>): string -> Lookup {
    ip => if cfg.classifierEnabled && reply.Some? then Answer(reply.value, ip) else NotAsked
  }

  lemma GradedExplained(cfg: Config, fetched: seq<Node>, reply: Option<seq<C.Record>>)
    requires AllFresh(fetched)
    ensures AllExplained(if cfg.classifierEnabled then C.Classified(fetched, reply) else fetched, AutoLookup(cfg, reply))
  {
  }

  /** Grading and probing a fetched list: what the answers say, or no verdict at all. */
  lemma PreparedExplained(cfg: Config, fetched: seq<Node>, reply: Option<seq<C.Record>>, dials: nat -> seq<P.Dial>)
    requires AllFresh(fetched)
    ensures AllExplained(PreparedNodes(cfg, fetched, reply, dials), AutoLookup(cfg, reply))
  {
    var graded := if cfg.classifierEnabled then C.Classified(fetched, reply) else fetched;
    GradedExplained(cfg, fetched, reply);
    Pool.ProbedKeeps(Batch(graded, dials));
    SameGradesExplained(graded, Pool.Probed(Batch(graded, dials)), AutoLookup(cfg, reply));
  }

  lemma ReadyExplained(
    cfg: Config, st: State, fetched: seq<Node>, fetching: Gap, reply: Option<seq<C.Record>>,
    dials: nat -> seq<P.Dial>, probing: Gap, deciding: Gap)
    requires AllFresh(fetched)
    ensures AllExplained(AutoReady(cfg, st, fetched, fetching, reply, dials, probing, deciding).nodes, AutoLookup(cfg, reply))
  {
    var prepared := PreparedNodes(cfg, fetched, reply, dials);
    var ready := AutoReady(cfg, st, fetched, fetching, reply, dials, probing, deciding);
    PreparedExplained(cfg, fetched, reply, dials);
    assert SameGrades(prepared, ready.nodes);
    SameGradesExplained(prepared, ready.nodes, AutoLookup(cfg, reply));
  }

  lemma AutoExplained(cfg: Config, before: State, action: Action)
    requires action.AutoConnect? && action.fetch.Ok? && FetchesFresh(action)
    ensures AllExplained(Perform(cfg, before, action).nodes, AutoLookup(cfg, action.reply))
  {
    var st, limit := Pass(before, action.before), if cfg.maxAttempts <= 0 then 1 else cfg.maxAttempts;
    ReadyExplained(cfg, st, action.fetch.value, action.fetching, action.reply, action.dials, action.probing, action.deciding);
    var ready := AutoReady(cfg, st, action.fetch.value, action.fetching, action.reply, action.dials, action.probing, action.deciding);
    TryBestKeepsGrades(cfg, ready, "", limit, action.script);
    SameGradesExplained(ready.nodes, TryBest(cfg, ready, "", limit, action.script).nodes, AutoLookup(cfg, action.reply));
  }

  lemma ClassifyStep(cfg: Config, before: State, action: Action, earlier: string -> Lookup)
    requires action.ClassifyNodes? && AllExplained(before.nodes, earlier)
    ensures AllExplained(Perform(cfg, before, action).nodes,
                         ip => if action.reply.Some? then Answer(action.reply.value, ip) else earlier(ip))
  {
    if action.reply.Some? {
      ClassifyExplains(before.nodes, action.reply.value);
    }
  }

  lemma RefreshStep(cfg: Config, before: State, action: Action)
    requires action.RefreshNodes? && action.fetch.Ok? && AllFresh(action.fetch.value)
    ensures AllExplained(Perform(cfg, before, action).nodes, _ => NotAsked)
  {
  }

  lemma StepExplained(cfg: Config, known: string -> Lookup, front: seq<Action>, before: State, action: Action)
    requires FetchesFresh(action) && AllExplained(before.nodes, ip => LastLookup(cfg, known, front, ip))
    ensures AllExplained(Perform(cfg, before, action).nodes, ip => LastLookup(cfg, known, front + [action], ip))
  {
    assert (front + [action])[..|front|] == front;
    if NoVerdict(action) {
      OthersKeepGrades(cfg, before, action);
    } else if action.AutoConnect? {
      AutoExplained(cfg, before, action);
    } else if action.ClassifyNodes? {
      ClassifyStep(cfg, before, action, ip => LastLookup(cfg, known, front, ip));
    } else {
      RefreshStep(cfg, before, action);
    }
  }

  lemma {:induction false} RunExplained(
    cfg: Config, known: string -> Lookup, nodes: seq<Node>, clock: int, actions: seq<Action>)
    requires AllExplained(nodes, known) && forall i :: 0 <= i < |actions| ==> FetchesFresh(actions[i])
    ensures AllExplained(Run(cfg, Start(nodes, clock), actions).nodes, ip => LastLookup(cfg, known, actions, ip))
  {
    if actions == [] {
    } else {
      var front := actions[..|actions|-1];
      assert actions == front + [actions[|actions|-1]];
      RunExplained(cfg, known, nodes, clock, front);
      StepExplained(cfg, known, front, Run(cfg, Start(nodes, clock), front), actions[|actions|-1]);
    }
  }

  /**
   In every run, a cached node with 90 points is a strict home if and only if the last lookup that was answered
   since the last fetch had a usable record for its address. A run may begin with fetched nodes, of which nothing
   is known, or with the restored cache of an earlier run, of which that run's own lookups are.
   */
  lemma NinetyPointsIff(
    cfg: Config, known: string -> Lookup, nodes: seq<Node>, clock: int, actions: seq<Action>, i: nat)
    requires AllExplained(nodes, known) && forall j :: 0 <= j < |actions| ==> FetchesFresh(actions[j])
    requires i < |Run(cfg, Start(nodes, clock), actions).nodes|
    ensures var n := Run(cfg, Start(nodes, clock), actions).nodes[i];
            n.purityScore == 90 ==> (n.grade == StrictHome <==> LastLookup(cfg, known, actions, n.ip) == Found)
  {
    RunExplained(cfg, known, nodes, clock, actions);
    assert Explained(Run(cfg, Start(nodes, clock), actions).nodes[i],
                     LastLookup(cfg, known, actions, Run(cfg, Start(nodes, clock), actions).nodes[i].ip));
  }

  lemma FreshIsExplained(nodes: seq<Node>)
    requires AllFresh(nodes)
    ensures AllExplained(nodes, _ => NotAsked)
  {
  }

  /** Across a restart: the cache one run leaves is explained for the next by the lookups of the first. */
  lemma NinetyPointsAcrossRestart(
    cfg: Config, nodes: seq<Node>, clock: int, first: seq<Action>, restart: int, second: seq<Action>, i: nat)
    requires AllFresh(nodes) && forall j :: 0 <= j < |first| ==> FetchesFresh(first[j])
    requires forall j :: 0 <= j < |second| ==> FetchesFresh(second[j])
    requires i < |Run(cfg, Start(Run(cfg, Start(nodes, clock), first).nodes, restart), second).nodes|
    ensures var n := Run(cfg, Start(Run(cfg, Start(nodes, clock), first).nodes, restart), second).nodes[i];
            var known := (ip: string) => LastLookup(cfg, _ => NotAsked, first, ip);
            n.purityScore == 90 ==> (n.grade == StrictHome <==> LastLookup(cfg, known, second, n.ip) == Found)
  {
    FreshIsExplained(nodes);
    RunExplained(cfg, _ => NotAsked, nodes, clock, first);
    NinetyPointsIff(cfg, ip => LastLookup(cfg, _ => NotAsked, first, ip), Run(cfg, Start(nodes, clock), first).nodes,
                    restart, second, i);
  }

  // ------------------------------------------------------------------ they do part

  function Home(ip: string): C.Record {
    C.Record(ip, true, false, false, false, false, true, "")
  }

  function Neutral(ip: string): C.Record {
    C.Record(ip, true, false, false, false, false, false, "")
  }

  function Ask(records: seq<C.Record>): Action {
    ClassifyNodes(QUIET, Some(records), QUIET, QUIET)
  }

  /** Candidates of the same status with 90 and with 40 points: the former comes first. */
  lemma NinetyBeforeForty(a: Node, b: Node)
    requires a.grade == Candidate && a.purityScore == 90 && b.grade == Candidate && b.purityScore == 40
    requires a.status == b.status
    ensures Before(a, b)
  {
  }

  lemma LookupTwo(a: C.Record, b: C.Record)
    requires a.query != b.query
    ensures C.ByIp([b]) == map[b.query := b] && C.ByIp([a, b]) == map[a.query := a, b.query := b]
  {
    assert [a, b][..1] == [a] && [a][..0] == [] && [b][..0] == [];
    assert C.ByIp([a]) == map[a.query := a];
  }

  lemma FirstLookup(n: Node, m: Node)
    requires Source.Fresh(n) && Source.Fresh(m) && n.ip != m.ip
    ensures C.Classified([n, m], Some([Home(n.ip), Neutral(m.ip)]))
            == [n.(grade := StrictHome, purityScore := 90), m.(purityScore := 40)]
  {
    LookupTwo(Home(n.ip), Neutral(m.ip));
    assert Text.TrimSpace("") == "";
  }

  lemma SecondLookup(n: Node, m: Node)
    requires n.grade == StrictHome && m.grade == Candidate && m.purityScore == 40 && n.ip != m.ip
    ensures C.Classified([n, m], Some([Neutral(m.ip)])) == [n.(grade := Candidate), m]
  {
    LookupTwo(Home(n.ip), Neutral(m.ip));
    assert Text.TrimSpace("") == "";
  }

  function DemotingRun(n: Node, m: Node): seq<Action> {
    [Ask([Home(n.ip), Neutral(m.ip)]), Ask([Neutral(m.ip)])]
  }

  lemma AskClassifies(cfg: Config, st: State, records: seq<C.Record>)
    requires st.nodes != []
    ensures Perform(cfg, st, Ask(records)).nodes == C.Classified(st.nodes, Some(records))
    ensures Perform(cfg, st, Ask(records)).clock == st.clock
  {
  }

  lemma TwoLookups(cfg: Config, n: Node, m: Node, clock: int)
    requires Source.Fresh(n) && Source.Fresh(m) && n.ip != m.ip
    ensures var r := Run(cfg, Start([n, m], clock), DemotingRun(n, m));
            r.nodes == [n.(purityScore := 90), m.(purityScore := 40)] && r.clock == clock
  {
    var st, first, second := Start([n, m], clock), [Home(n.ip), Neutral(m.ip)], [Neutral(m.ip)];
    RunTwo(cfg, st, Ask(first), Ask(second));
    AskClassifies(cfg, st, first);
    FirstLookup(n, m);
    AskClassifies(cfg, Perform(cfg, st, Ask(first)), second);
    SecondLookup(n.(grade := StrictHome, purityScore := 90), m.(purityScore := 40));
  }

  lemma BeforeIsStrict(a: Node, b: Node)
    requires Before(a, b)
    ensures !Before(b, a)
  {
    StringLessTotal(a.id, b.id);
  }

  lemma SortsTwo(a: Node, b: Node, now: int)
    requires Connectable(a, now) && Connectable(b, now) && Before(a, b)
    ensures Candidates([a, b], "", 0, now) == [a, b]
  {
    assert [a, b][..1] == [a] && [a][..0] == [];
    assert Filter([a], now) == [a];
    assert Filter([a, b], now) == [a, b];
    assert [a, b][1..] == [b] && [b][1..] == [];
    assert Sorting.Sort(Before, [b]) == [b];
    BeforeIsStrict(a, b);
  }

  /**
   From two fetched nodes, two lookups away: the second has no record for the strict home the first found, which
   becomes a mere candidate, keeps its 90 points and still comes before the other candidate.
   */
  lemma DemotedStaysAhead(cfg: Config, n: Node, m: Node, clock: int)
    requires Source.Fresh(n) && Source.Fresh(m) && n.ip != m.ip && n.protocol == "tcp" && m.protocol == "tcp"
    ensures var r := Run(cfg, Start([n, m], clock), DemotingRun(n, m));
            && |r.nodes| == 2 && r.nodes[0].grade == Candidate && r.nodes[0].purityScore == 90
            && Ids(Listed(r, "", 0)) == [n.id, m.id]
  {
    TwoLookups(cfg, n, m, clock);
    var a, b := n.(purityScore := 90), m.(purityScore := 40);
    NinetyBeforeForty(a, b);
    SortsTwo(a, b, clock);
  }
}
