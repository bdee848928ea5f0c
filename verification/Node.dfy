/** The nodes the manager works on (`domain.VpnNode`), reduced to what ranking, probing and failover read. */
module Nodes {
  import opened Prelude

  datatype Grade = Ungraded | Rejected | Candidate | StrictHome

  datatype Status = Unknown | Checking | Available | Unavailable | Cooldown

  /** `publicHost` stands for isPublicIP(RemoteHost); times are integers on one clock. */
  datatype Node = Node(
    id: string,
    ip: string,
    publicHost: bool,
    protocol: string,
    countryCode: string,
    score: int,
    advertisedPingMS: int,
    latencyMS: Option<int>,
    latencySuspicious: bool,
    probeAttempts: int,
    probeSuccesses: int,
    grade: Grade,
    purityScore: int,
    status: Status,
    lastError: string,
    cooldownUntil: Option<int>)

  ghost predicate DistinctIds(nodes: seq<Node>) {
    forall i, j :: 0 <= i < j < |nodes| ==> nodes[i].id != nodes[j].id
  }

  function Ids(nodes: seq<Node>): (r: seq<string>)
    ensures |r| == |nodes| && forall i :: 0 <= i < |nodes| ==> r[i] == nodes[i].id
  {
    seq(|nodes|, i requires 0 <= i < |nodes| => nodes[i].id)
  }

  /** The purity scores the classifier can leave behind; what nodeRank relies on. */
  predicate ScoreOk(n: Node) {
    && n.purityScore in {0, 40, 90}
    && (n.grade == StrictHome ==> n.purityScore == 90)
    && (n.grade == Rejected ==> n.purityScore == 0)
  }

  ghost predicate ScoresOk(nodes: seq<Node>) {
    forall i :: 0 <= i < |nodes| ==> ScoreOk(nodes[i])
  }

  /** The same addresses with the same verdicts of the classifier. */
  ghost predicate SameGrades(a: seq<Node>, b: seq<Node>) {
    && |a| == |b|
    && forall i :: 0 <= i < |a| ==>
         a[i].ip == b[i].ip && a[i].grade == b[i].grade && a[i].purityScore == b[i].purityScore
  }
}
