/**
 Candidate lists, failures and refreshes in terms of the fields of the nodes, without the comparator, the ranks and
 the filters that compute them.
 */
module Ranking {
  import opened Prelude
  import opened Nodes
  import opened Failover
  import opened Sorting

  // ------------------------------------------------------------------ who is listed

  /** What makes a node one to connect to at a given time. */
  predicate Usable(n: Node, now: int) {
    && n.protocol == "tcp" && n.grade != Rejected && n.status != Unavailable
    && (n.cooldownUntil.None? || n.cooldownUntil.value <= now)
  }

  /** Without a limit exactly the TCP nodes that are neither rejected, nor unavailable, nor cooling are listed. */
  lemma ListedIff(nodes: seq<Node>, now: int, n: Node)
    ensures n in Candidates(nodes, "", 0, now) <==> n in nodes && Usable(n, now)
  {
    FilterElements(nodes, now);
    SortPermutes(Before, Filter(nodes, now));
  }

  /** By ID exactly one such node is listed if there is any, whatever the limit, and none otherwise. */
  lemma RequestedIff(nodes: seq<Node>, id: string, maxAttempts: int, now: int)
    requires id != ""
    ensures var list := Candidates(nodes, id, maxAttempts, now);
            && |list| <= 1
            && (forall n :: n in list ==> n in nodes && n.id == id && Usable(n, now))
            && (list != [] <==> exists n :: n in nodes && n.id == id && Usable(n, now))
  {
    FindCorrect(nodes, id, now);
  }

  // ------------------------------------------------------------------ in which order

  /** `a` comes before `b` in byte order: they part at `k`, where `a` ends or has the smaller character. */
  predicate PartsAt(a: string, b: string, k: nat) {
    && k <= |a| && k < |b| && a[..k] == b[..k] && (k < |a| ==> a[k] < b[k])
  }

  lemma {:induction false} LessParts(a: string, b: string) returns (k: nat)
    requires StringLess(a, b)
    ensures PartsAt(a, b, k)
  {
    if a == [] || a[0] < b[0] {
      k := 0;
    } else {
      var j := LessParts(a[1..], b[1..]);
      k := j + 1;
      assert a[..k] == [a[0]] + a[1..][..j] && b[..k] == [b[0]] + b[1..][..j];
    }
  }

  predicate Trusted(n: Node) {
    n.latencyMS.Some? && !n.latencySuspicious
  }

  predicate SamePurity(a: Node, b: Node) {
    && (a.grade == StrictHome <==> b.grade == StrictHome) && (a.status == Available <==> b.status == Available)
    && a.purityScore == b.purityScore
  }

  /** An advertised ping that the program's 64-bit arithmetic can carry. */
  predicate PingFits(n: Node) {
    n.advertisedPingMS < 0x8000_0000_0000_0000 - 100_000
  }

  /** Strict homes first, then available nodes, then the higher purity score. */
  predicate PurityOrder(a: Node, b: Node) {
    && (b.grade == StrictHome ==> a.grade == StrictHome)
    && ((a.grade == StrictHome <==> b.grade == StrictHome) && b.status == Available ==> a.status == Available)
    && ((a.grade == StrictHome <==> b.grade == StrictHome) && (a.status == Available <==> b.status == Available) ==>
          a.purityScore >= b.purityScore)
  }

  /**
   Between nodes of the same purity: the faster of two trusted measurements; a trusted one below 100 s before any
   advertised ping and before nothing at all; the smaller of two advertised pings; one below 900 s before none.
   */
  predicate LatencyOrder(a: Node, b: Node) {
    && (Trusted(a) && Trusted(b) ==> a.latencyMS.value <= b.latencyMS.value)
    && (!Trusted(a) && Trusted(b) ==> b.latencyMS.value > 100_000)
    && (!Trusted(a) && !Trusted(b) && a.advertisedPingMS > 0 && b.advertisedPingMS > 0 ==>
          a.advertisedPingMS <= b.advertisedPingMS)
    && (!Trusted(a) && !Trusted(b) && a.advertisedPingMS <= 0 && b.advertisedPingMS > 0 ==> b.advertisedPingMS >= 900_000)
  }

  /** The same latency, measured or advertised or unknown: then the higher score, then the smaller ID. */
  predicate SameLatency(a: Node, b: Node) {
    if Trusted(a) then Trusted(b) && a.latencyMS == b.latencyMS
    else !Trusted(b) && (a.advertisedPingMS == b.advertisedPingMS || (a.advertisedPingMS <= 0 && b.advertisedPingMS <= 0))
  }

  lemma BeforeOnPurity(a: Node, b: Node)
    requires ScoreOk(a) && ScoreOk(b) && Before(a, b)
    ensures PurityOrder(a, b)
  {
    RankIsLexicographic(a, b);
    RankIsLexicographic(b, a);
  }

  lemma BeforeOnLatency(a: Node, b: Node)
    requires SamePurity(a, b) && PingFits(a) && PingFits(b) && Before(a, b)
    ensures LatencyOrder(a, b)
  {
  }

  lemma BeforeOnScore(a: Node, b: Node)
    requires SamePurity(a, b) && SameLatency(a, b) && PingFits(a) && PingFits(b) && Before(a, b)
    ensures a.score >= b.score
    ensures a.score == b.score ==> exists k :: PartsAt(a.id, b.id, k)
  {
    if a.score == b.score {
      var k := LessParts(a.id, b.id);
    }
  }

  /** The order of every candidate list, on the fields of its nodes. */
  lemma CandidateOrder(nodes: seq<Node>, maxAttempts: int, now: int, i: nat, j: nat)
    requires DistinctIds(nodes) && ScoresOk(nodes) && forall k :: 0 <= k < |nodes| ==> PingFits(nodes[k])
    requires i < j < |Candidates(nodes, "", maxAttempts, now)|
    ensures var a, b := Candidates(nodes, "", maxAttempts, now)[i], Candidates(nodes, "", maxAttempts, now)[j];
            && a.id != b.id && PurityOrder(a, b)
            && (SamePurity(a, b) ==> LatencyOrder(a, b))
            && (SamePurity(a, b) && SameLatency(a, b) ==>
                  a.score > b.score || (a.score == b.score && exists k :: PartsAt(a.id, b.id, k)))
  {
    var s := Sort(Before, Filter(nodes, now));
    StrictlySorted(nodes, now);
    var a, b := s[i], s[j];
    assert a in s && b in s && a in nodes && b in nodes;
    BeforeOnPurity(a, b);
    if SamePurity(a, b) {
      BeforeOnLatency(a, b);
      if SameLatency(a, b) {
        BeforeOnScore(a, b);
      }
    }
  }

  /**
   A ping that does not fit wraps round and comes before every trusted measurement of the same purity, which breaks
   the order exactly where that measurement is at most 100 s.
   */
  lemma OverflownPingLeads(a: Node, b: Node)
    requires SamePurity(a, b) && !Trusted(a) && !PingFits(a) && a.advertisedPingMS < 0x8000_0000_0000_0000
    requires Trusted(b) && b.latencyMS.value >= 0
    ensures Before(a, b)
    ensures LatencyOrder(a, b) <==> b.latencyMS.value > 100_000
  {
  }

  // ------------------------------------------------------------------ failures and refreshes

  /** Everything about a node that a failure or a restored cooldown leaves alone. */
  predicate SameButCooldown(a: Node, b: Node) {
    b == a.(status := b.status, lastError := b.lastError, cooldownUntil := b.cooldownUntil)
  }

  /** A failure sets status, error and deadline of the node of that ID, and nothing else anywhere. */
  lemma FailureOnFields(nodes: seq<Node>, id: string, message: string, cooldown: int, now: int, i: nat)
    requires DistinctIds(nodes) && i < |nodes|
    ensures var r := MarkFailure(nodes, id, message, cooldown, now);
            && |r| == |nodes|
            && (nodes[i].id != id ==> r[i] == nodes[i])
            && (nodes[i].id == id ==>
                  && SameButCooldown(nodes[i], r[i]) && r[i].status == Cooldown && r[i].lastError == message
                  && (cooldown > 0 ==> r[i].cooldownUntil == Some(now + cooldown))
                  && (cooldown <= 0 ==> r[i].cooldownUntil == nodes[i].cooldownUntil))
  {
    MarkFailureEffect(nodes, id, message, cooldown, now);
  }

  /** A refresh carries the cooldown of a node that the previous cache held before its deadline, and nothing else. */
  lemma RefreshOnFields(nodes: seq<Node>, previous: seq<Node>, now: int, i: nat, j: nat)
    requires DistinctIds(previous) && i < |nodes| && j < |previous| && previous[j].id == nodes[i].id
    ensures var r := PreserveCooldowns(nodes, previous, now);
            && |r| == |nodes| && SameButCooldown(nodes[i], r[i])
            && (if previous[j].cooldownUntil.Some? && now < previous[j].cooldownUntil.value then
                  && r[i].status == Cooldown && r[i].cooldownUntil == previous[j].cooldownUntil
                  && r[i].lastError == previous[j].lastError
                else r[i] == nodes[i])
  {
    CoolingByIdCorrect(previous, now);
    assert previous[j] in previous;
    if nodes[i].id in CoolingById(previous, now) {
      OnlyOne(previous, CoolingById(previous, now)[nodes[i].id], j);
    }
  }

  lemma OnlyOne(nodes: seq<Node>, n: Node, j: nat)
    requires DistinctIds(nodes) && n in nodes && j < |nodes| && nodes[j].id == n.id
    ensures nodes[j] == n
  {
  }

  /** A node the previous cache did not hold is taken as it was fetched. */
  lemma NewNodeIsTakenAsFetched(nodes: seq<Node>, previous: seq<Node>, now: int, i: nat)
    requires i < |nodes| && nodes[i].id !in Ids(previous)
    ensures PreserveCooldowns(nodes, previous, now)[i] == nodes[i]
  {
    AbsentIsNotCooling(previous, now, nodes[i].id);
  }
}
