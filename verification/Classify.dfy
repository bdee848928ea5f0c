/** Residential classification (`StrictClassifier.Classify`), with the lookup service's answers as input. */
module Classify {
  import opened Prelude
  import opened Nodes
  import opened Text

  /** One answer; `denyWord` and `allowWord` say whether the identity text contains such a keyword. */
  datatype Record = Record(
    query: string, success: bool, proxy: bool, hosting: bool, mobile: bool,
    denyWord: bool, allowWord: bool, countryCode: string)

  function ByIp(records: seq<Record>): map<string, Record> {
    if records == [] then map[]
    else ByIp(records[..|records|-1])[records[|records|-1].query := records[|records|-1]]
  }

  predicate Denied(r: Record) {
    r.proxy || r.hosting || r.mobile || r.denyWord
  }

  predicate Usable(n: Node, byIp: map<string, Record>) {
    n.ip in byIp && byIp[n.ip].success
  }

  function ClassifyNode(n: Node, byIp: map<string, Record>): Node {
    if !Usable(n, byIp) then n.(grade := Candidate)
    else
      var r := byIp[n.ip];
      var m := n.(countryCode := if TrimSpace(r.countryCode) == "" then n.countryCode else r.countryCode);
      if Denied(r) then m.(grade := Rejected, purityScore := 0)
      else if r.allowWord then m.(grade := StrictHome, purityScore := 90)
      else m.(grade := Candidate, purityScore := 40)
  }

  /** `reply` is None when the lookup service failed. */
  function Classified(nodes: seq<Node>, reply: Option<seq<Record>>): (r: seq<Node>)
    ensures |r| == |nodes|
    ensures forall i :: 0 <= i < |nodes| ==>
              r[i] == (if reply.Some? then ClassifyNode(nodes[i], ByIp(reply.value))
                       else if nodes[i].grade == Ungraded then nodes[i].(grade := Candidate) else nodes[i])
  {
    seq(|nodes|, i requires 0 <= i < |nodes| =>
      if reply.Some? then ClassifyNode(nodes[i], ByIp(reply.value))
      else if nodes[i].grade == Ungraded then nodes[i].(grade := Candidate) else nodes[i])
  }

  method ClassifyNodes(nodes: seq<Node>, reply: Option<seq<Record>>) returns (result: seq<Node>)
    ensures result == Classified(nodes, reply)
  {
    result := nodes;
    if |result| == 0 {
      return;
    }
    if reply.None? {
      for i := 0 to |result|
        invariant |result| == |nodes|
        invariant forall j :: 0 <= j < i ==> result[j] == Classified(nodes, reply)[j]
        invariant forall j :: i <= j < |nodes| ==> result[j] == nodes[j]
      {
        if result[i].grade == Ungraded {
          result := result[i := result[i].(grade := Candidate)];
        }
      }
      return;
    }
    var records := reply.value;
    var byIp: map<string, Record> := map[];
    for i := 0 to |records|
      invariant byIp == ByIp(records[..i])
    {
      assert records[..i+1][..i] == records[..i];
      byIp := byIp[records[i].query := records[i]];
    }
    assert records[..|records|] == records;
    for i := 0 to |result|
      invariant |result| == |nodes|
      invariant forall j :: 0 <= j < i ==> result[j] == ClassifyNode(nodes[j], byIp)
      invariant forall j :: i <= j < |nodes| ==> result[j] == nodes[j]
    {
      var n := result[i];
      if n.ip !in byIp || !byIp[n.ip].success {
        result := result[i := n.(grade := Candidate)];
        continue;
      }
      var r := byIp[n.ip];
      if TrimSpace(r.countryCode) != "" {
        n := n.(countryCode := r.countryCode);
      }
      if r.proxy || r.hosting || r.mobile || r.denyWord {
        n := n.(grade := Rejected, purityScore := 0);
      } else if r.allowWord {
        n := n.(grade := StrictHome, purityScore := 90);
      } else {
        n := n.(grade := Candidate, purityScore := 40);
      }
      result := result[i := n];
    }
  }

  /** Classification keeps the score discipline and touches neither identity nor availability nor cooldown. */
  lemma ClassifiedKeeps(nodes: seq<Node>, reply: Option<seq<Record>>)
    ensures ScoresOk(nodes) ==> ScoresOk(Classified(nodes, reply))
    ensures Ids(Classified(nodes, reply)) == Ids(nodes)
    ensures forall i :: 0 <= i < |nodes| ==>
              var a, b := nodes[i], Classified(nodes, reply)[i];
              a.status == b.status && a.cooldownUntil == b.cooldownUntil && a.latencyMS == b.latencyMS
  {
  }

  // ------------------------------------------------------------------ the verdict, record by record

  /** Record `k` is the last one for an address. */
  ghost predicate LastFor(records: seq<Record>, ip: string, k: int) {
    0 <= k < |records| && records[k].query == ip && forall j :: k < j < |records| ==> records[j].query != ip
  }

  lemma {:induction false} ByIpIsLast(records: seq<Record>, ip: string)
    ensures forall k :: LastFor(records, ip, k) ==> ip in ByIp(records) && ByIp(records)[ip] == records[k]
    ensures (forall k :: 0 <= k < |records| ==> records[k].query != ip) ==> ip !in ByIp(records)
  {
    if records == [] {
    } else {
      var front, last := records[..|records|-1], records[|records|-1];
      ByIpIsLast(front, ip);
      assert forall j :: 0 <= j < |front| ==> front[j] == records[j];
      forall k | LastFor(records, ip, k) ensures ip in ByIp(records) && ByIp(records)[ip] == records[k] {
        if k < |front| {
          assert LastFor(front, ip, k);
          assert last.query != ip;
        }
      }
    }
  }

  /** Everything about a node that a lookup leaves alone. */
  predicate SameButVerdict(a: Node, b: Node) {
    b == a.(grade := b.grade, purityScore := b.purityScore, countryCode := b.countryCode)
  }

  /**
   The last usable record for a node's address decides: any sign of a proxy, a hosting provider, a mobile network or
   a denied name rejects it with 0 points; otherwise an allowed name makes it a strict home with 90, and nothing
   in particular a candidate with 40.
   */
  lemma VerdictOfRecord(nodes: seq<Node>, records: seq<Record>, i: nat, k: nat)
    requires i < |nodes| && LastFor(records, nodes[i].ip, k) && records[k].success
    ensures var n, r := Classified(nodes, Some(records))[i], records[k];
            && SameButVerdict(nodes[i], n)
            && (r.proxy || r.hosting || r.mobile || r.denyWord ==> n.grade == Rejected && n.purityScore == 0)
            && (!r.proxy && !r.hosting && !r.mobile && !r.denyWord && r.allowWord ==>
                  n.grade == StrictHome && n.purityScore == 90)
            && (!r.proxy && !r.hosting && !r.mobile && !r.denyWord && !r.allowWord ==>
                  n.grade == Candidate && n.purityScore == 40)
            && n.countryCode == (if TrimSpace(r.countryCode) == "" then nodes[i].countryCode else r.countryCode)
  {
    ByIpIsLast(records, nodes[i].ip);
  }

  /** Without a usable record a node becomes a candidate and keeps its points. */
  lemma VerdictWithoutRecord(nodes: seq<Node>, records: seq<Record>, i: nat)
    requires i < |nodes| && forall k :: LastFor(records, nodes[i].ip, k) ==> !records[k].success
    ensures Classified(nodes, Some(records))[i] == nodes[i].(grade := Candidate)
  {
    ByIpIsLast(records, nodes[i].ip);
    if nodes[i].ip in ByIp(records) {
      var k := SomeLast(records, nodes[i].ip);
    }
  }

  lemma {:induction false} SomeLast(records: seq<Record>, ip: string) returns (k: nat)
    requires ip in ByIp(records)
    ensures LastFor(records, ip, k)
  {
    var front, last := records[..|records|-1], records[|records|-1];
    if last.query == ip {
      k := |records| - 1;
    } else {
      k := SomeLast(front, ip);
    }
  }

  /** When the lookup service fails no grade but a missing one changes. */
  lemma VerdictWithoutReply(nodes: seq<Node>, i: nat)
    requires i < |nodes|
    ensures Classified(nodes, None)[i] == if nodes[i].grade == Ungraded then nodes[i].(grade := Candidate) else nodes[i]
  {
  }
}
