/** TCP probing of nodes (`internal/probe/tcp.go`), with the outcome of every dial as input. */
module Probe {
  import opened Prelude
  import opened Nodes
  import opened Sorting
  import opened Text
  import F = Failover

  /** One dial attempt; `elapsed` in nanoseconds. */
  datatype Dial = Refused(error: string) | Connected(elapsed: int)

  const MINIMUM_TRUSTED_PUBLIC_LATENCY_MS := 5
  const BATCH_ANOMALY_LATENCY_MS := 15

  const UDP_NOTE := "udp node"
  const LOW_NOTE := "latency implausibly low"
  const BATCH_NOTE := "batch latency implausibly low"

  function CeilMilliseconds(duration: int): int {
    if duration <= 0 then 1 else (duration + 999_999) / 1_000_000
  }

  /** The least number of whole milliseconds that covers the duration, and at least one. */
  lemma CeilIsLeast(duration: int, ms: int)
    ensures CeilMilliseconds(duration) >= 1
    ensures ms >= 1 ==> (ms >= CeilMilliseconds(duration) <==> ms * 1_000_000 >= duration)
  {
  }

  function Latencies(dials: seq<Dial>): seq<int> {
    if dials == [] then []
    else
      Latencies(dials[..|dials|-1])
      + (if dials[|dials|-1].Connected? then [CeilMilliseconds(dials[|dials|-1].elapsed)] else [])
  }

  function LastError(dials: seq<Dial>): string {
    if dials == [] then ""
    else if dials[|dials|-1].Refused? then dials[|dials|-1].error
    else LastError(dials[..|dials|-1])
  }

  predicate IntLess(a: int, b: int) {
    a < b
  }

  function UpperMedian(xs: seq<int>): int
    requires xs != []
  {
    SortPermutes(IntLess, xs);
    Sort(IntLess, xs)[|xs| / 2]
  }

  function Reset(n: Node, samples: int): Node {
    n.(probeAttempts := samples, probeSuccesses := 0, latencyMS := None, latencySuspicious := false)
  }

  predicate IsTcp(n: Node) {
    ToLower(n.protocol) == "tcp"
  }

  /** What one worker writes into its slot. */
  function Conclude(n: Node, latencies: seq<int>, lastError: string): Node {
    if latencies == [] then n.(probeSuccesses := 0, status := Unavailable, lastError := lastError)
    else
      var median := UpperMedian(latencies);
      var m := n.(probeSuccesses := |latencies|, latencyMS := Some(median), status := Available, lastError := "");
      if n.publicHost && median < MINIMUM_TRUSTED_PUBLIC_LATENCY_MS then m.(latencySuspicious := true, lastError := LOW_NOTE)
      else m
  }

  function ProbeNode(n: Node, dials: seq<Dial>): Node {
    if !IsTcp(n) then Reset(n, 0).(status := Unknown, lastError := UDP_NOTE)
    else Conclude(Reset(n, |dials|), Latencies(dials), LastError(dials))
  }

  // ------------------------------------------------------------------ the median

  function AtMost(xs: seq<int>, m: int): nat {
    if xs == [] then 0 else (if xs[0] <= m then 1 else 0) + AtMost(xs[1..], m)
  }

  function AtLeast(xs: seq<int>, m: int): nat {
    if xs == [] then 0 else (if xs[0] >= m then 1 else 0) + AtLeast(xs[1..], m)
  }

  lemma {:induction false} CountInsert(x: int, ys: seq<int>, m: int)
    ensures AtMost(Insert(IntLess, x, ys), m) == AtMost(ys, m) + (if x <= m then 1 else 0)
    ensures AtLeast(Insert(IntLess, x, ys), m) == AtLeast(ys, m) + (if x >= m then 1 else 0)
  {
    if ys != [] && IntLess(ys[0], x) {
      CountInsert(x, ys[1..], m);
      assert Insert(IntLess, x, ys)[1..] == Insert(IntLess, x, ys[1..]);
    } else {
      assert Insert(IntLess, x, ys)[1..] == ys;
    }
  }

  lemma {:induction false} CountSort(xs: seq<int>, m: int)
    ensures AtMost(Sort(IntLess, xs), m) == AtMost(xs, m) && AtLeast(Sort(IntLess, xs), m) == AtLeast(xs, m)
  {
    if xs == [] {
    } else {
      CountSort(xs[1..], m);
      CountInsert(xs[0], Sort(IntLess, xs[1..]), m);
    }
  }

  lemma {:induction false} CountsOfSorted(xs: seq<int>, m: int, k: nat)
    requires k <= |xs|
    requires forall i :: 0 <= i < k ==> xs[i] <= m
    requires forall i :: k <= i < |xs| ==> xs[i] >= m
    ensures AtMost(xs, m) >= k && AtLeast(xs, m) >= |xs| - k
  {
    if xs == [] {
    } else {
      CountsOfSorted(xs[1..], m, if k > 0 then k - 1 else 0);
    }
  }

  /** At least half of the successful samples lie on each side of the measured latency, and more than half not above it. */
  lemma MedianSplits(xs: seq<int>)
    requires xs != []
    ensures UpperMedian(xs) in xs
    ensures 2 * AtMost(xs, UpperMedian(xs)) > |xs| && 2 * AtLeast(xs, UpperMedian(xs)) >= |xs|
  {
    var s, k := Sort(IntLess, xs), |xs| / 2;
    SortPermutes(IntLess, xs);
    SortedInts(xs);
    assert UpperMedian(xs) == s[k] && s[k] in s;
    CountsOfSorted(s, s[k], k);
    CountsOfSorted(s, s[k], k + 1);
    CountSort(xs, s[k]);
  }

  lemma SortedInts(xs: seq<int>)
    ensures var s := Sort(IntLess, xs); forall i, j :: 0 <= i <= j < |s| ==> s[i] <= s[j]
  {
    SortIsStableSort(IntLess, xs);
  }

  lemma {:induction false} LatenciesArePositive(dials: seq<Dial>)
    ensures forall x :: x in Latencies(dials) ==> x >= 1
    ensures |Latencies(dials)| <= |dials|
  {
    if dials == [] {
    } else {
      LatenciesArePositive(dials[..|dials|-1]);
      CeilIsLeast(if dials[|dials|-1].Connected? then dials[|dials|-1].elapsed else 0, 1);
    }
  }

  /** A probed node is available exactly when it has a latency, and that latency is a median of at least 1 ms. */
  lemma ProbeNodeMeasures(n: Node, dials: seq<Dial>)
    ensures var p := ProbeNode(n, dials);
            && (p.status == Available <==> p.latencyMS.Some?)
            && (p.status == Available <==> IsTcp(n) && exists i :: 0 <= i < |dials| && dials[i].Connected?)
            && (p.latencyMS.Some? ==> p.latencyMS.value >= 1 && p.latencyMS.value == UpperMedian(Latencies(dials)))
            && p.id == n.id && p.cooldownUntil == n.cooldownUntil && p.grade == n.grade && p.purityScore == n.purityScore
            && p.protocol == n.protocol && p.ip == n.ip
  {
    LatenciesArePositive(dials);
    SomeLatency(dials);
    if Latencies(dials) != [] {
      MedianSplits(Latencies(dials));
    }
  }

  lemma {:induction false} SomeLatency(dials: seq<Dial>)
    ensures Latencies(dials) != [] <==> exists i :: 0 <= i < |dials| && dials[i].Connected?
  {
    if dials == [] {
    } else {
      var front := dials[..|dials|-1];
      SomeLatency(front);
      assert forall i :: 0 <= i < |front| ==> front[i] == dials[i];
    }
  }

  // ------------------------------------------------------------------ the measurement in terms of the dials

  /** The dials that connected. */
  function Connects(dials: seq<Dial>): set<int> {
    set i | 0 <= i < |dials| && dials[i].Connected?
  }

  /** Those that connected within `ms` milliseconds, and those that took at least as long. */
  function Within(dials: seq<Dial>, ms: int): set<int> {
    set i | 0 <= i < |dials| && dials[i].Connected? && CeilMilliseconds(dials[i].elapsed) <= ms
  }

  function NotWithin(dials: seq<Dial>, ms: int): set<int> {
    set i | 0 <= i < |dials| && dials[i].Connected? && CeilMilliseconds(dials[i].elapsed) >= ms
  }

  lemma {:induction false} CountSnoc(xs: seq<int>, x: int, m: int)
    ensures AtMost(xs + [x], m) == AtMost(xs, m) + (if x <= m then 1 else 0)
    ensures AtLeast(xs + [x], m) == AtLeast(xs, m) + (if x >= m then 1 else 0)
  {
    if xs == [] {
      assert xs + [x] == [x];
      assert [x][1..] == [];
    } else {
      assert (xs + [x])[1..] == xs[1..] + [x];
      CountSnoc(xs[1..], x, m);
    }
  }

  lemma SetsGrow(dials: seq<Dial>, m: int)
    requires dials != []
    ensures var front, i := dials[..|dials|-1], |dials| - 1;
            && Connects(dials) == Connects(front) + (if dials[i].Connected? then {i} else {})
            && Within(dials, m) == Within(front, m)
               + (if dials[i].Connected? && CeilMilliseconds(dials[i].elapsed) <= m then {i} else {})
            && NotWithin(dials, m) == NotWithin(front, m)
               + (if dials[i].Connected? && CeilMilliseconds(dials[i].elapsed) >= m then {i} else {})
            && i !in Connects(front) && i !in Within(front, m) && i !in NotWithin(front, m)
  {
    var front := dials[..|dials|-1];
    assert forall i :: 0 <= i < |front| ==> front[i] == dials[i];
  }

  lemma {:induction false} CountsAreSets(dials: seq<Dial>, m: int)
    ensures |Latencies(dials)| == |Connects(dials)|
    ensures AtMost(Latencies(dials), m) == |Within(dials, m)| && AtLeast(Latencies(dials), m) == |NotWithin(dials, m)|
  {
    if dials == [] {
      assert Connects(dials) == {} && Within(dials, m) == {} && NotWithin(dials, m) == {};
    } else {
      var front, last := dials[..|dials|-1], dials[|dials|-1];
      CountsAreSets(front, m);
      SetsGrow(dials, m);
      if last.Connected? {
        CountSnoc(Latencies(front), CeilMilliseconds(last.elapsed), m);
      } else {
        assert Latencies(dials) == Latencies(front);
      }
    }
  }

  /** Every latency is that of a dial. */
  lemma {:induction false} LatencyOfDial(dials: seq<Dial>, x: int) returns (i: int)
    requires x in Latencies(dials)
    ensures i in Connects(dials) && CeilMilliseconds(dials[i].elapsed) == x
  {
    var front, last := dials[..|dials|-1], dials[|dials|-1];
    if x in Latencies(front) {
      i := LatencyOfDial(front, x);
    } else {
      i := |dials| - 1;
    }
  }

  /** A node that is not TCP is not measured and says nothing about its availability. */
  lemma ProbeSkipsUdp(n: Node, dials: seq<Dial>)
    requires ToLower(n.protocol) != "tcp"
    ensures var p := ProbeNode(n, dials);
            p.status == Unknown && p.latencyMS.None? && !p.latencySuspicious && p.probeAttempts == 0 && p.probeSuccesses == 0
  {
  }

  /** A TCP node no dial reached is unavailable, for the reason of the last dial. */
  lemma ProbeFails(n: Node, dials: seq<Dial>)
    requires ToLower(n.protocol) == "tcp" && Connects(dials) == {} && dials != []
    ensures var p := ProbeNode(n, dials);
            && p.status == Unavailable && p.latencyMS.None? && !p.latencySuspicious
            && p.probeAttempts == |dials| && p.probeSuccesses == 0
            && dials[|dials|-1].Refused? && p.lastError == dials[|dials|-1].error
  {
    CountsAreSets(dials, 0);
    assert dials[|dials|-1].Connected? ==> |dials| - 1 in Connects(dials);
  }

  /**
   A TCP node some dial reached is available. Its latency is that of one of the dials, with at least half of those
   that connected on each side and more than half not slower, and it is suspicious exactly when the host is public
   and the latency below 5 ms.
   */
  lemma ProbeMeasures(n: Node, dials: seq<Dial>) returns (i: int)
    requires ToLower(n.protocol) == "tcp" && Connects(dials) != {}
    ensures var p := ProbeNode(n, dials);
            && p.status == Available && p.probeAttempts == |dials| && p.probeSuccesses == |Connects(dials)|
            && i in Connects(dials) && p.latencyMS == Some(CeilMilliseconds(dials[i].elapsed))
            && 2 * |Within(dials, p.latencyMS.value)| > |Connects(dials)|
            && 2 * |NotWithin(dials, p.latencyMS.value)| >= |Connects(dials)|
            && (p.latencySuspicious <==> n.publicHost && p.latencyMS.value < 5)
            && (!p.latencySuspicious ==> p.lastError == "")
  {
    CountsAreSets(dials, 0);
    var m := UpperMedian(Latencies(dials));
    CountsAreSets(dials, m);
    MedianSplits(Latencies(dials));
    i := LatencyOfDial(dials, m);
  }

  // ------------------------------------------------------------------ the batch rule

  predicate Measured(n: Node) {
    n.latencyMS.Some? && n.publicHost
  }

  function MeasuredCount(nodes: seq<Node>): nat {
    if nodes == [] then 0
    else MeasuredCount(nodes[..|nodes|-1]) + (if Measured(nodes[|nodes|-1]) then 1 else 0)
  }

  function FastCount(nodes: seq<Node>): nat {
    if nodes == [] then 0
    else
      FastCount(nodes[..|nodes|-1])
      + (if Measured(nodes[|nodes|-1]) && nodes[|nodes|-1].latencyMS.value < BATCH_ANOMALY_LATENCY_MS then 1 else 0)
  }

  function Countries(nodes: seq<Node>): set<string> {
    set i | 0 <= i < |nodes| && Measured(nodes[i]) && nodes[i].countryCode != "" :: nodes[i].countryCode
  }

  predicate Anomalous(nodes: seq<Node>) {
    MeasuredCount(nodes) >= 10 && |Countries(nodes)| >= 2 && FastCount(nodes) * 100 >= MeasuredCount(nodes) * 60
  }

  function Mark(n: Node): Node {
    if Measured(n) then n.(latencySuspicious := true, lastError := BATCH_NOTE) else n
  }

  function MarkAll(nodes: seq<Node>): (r: seq<Node>)
    ensures |r| == |nodes| && forall i :: 0 <= i < |nodes| ==> r[i] == Mark(nodes[i])
  {
    seq(|nodes|, i requires 0 <= i < |nodes| => Mark(nodes[i]))
  }

  function MarkBatch(nodes: seq<Node>): seq<Node> {
    if Anomalous(nodes) then MarkAll(nodes) else nodes
  }

  /** The rule as the program runs it, in place. */
  method MarkBatchLatencyAnomaly(nodes: array<Node>)
    modifies nodes
    ensures nodes[..] == MarkBatch(old(nodes[..]))
  {
    ghost var before := nodes[..];
    var measured, fast := 0, 0;
    var countries: set<string> := {};
    for i := 0 to nodes.Length
      invariant nodes[..] == before
      invariant measured == MeasuredCount(before[..i]) && fast == FastCount(before[..i])
      invariant countries == Countries(before[..i])
    {
      var n := nodes[i];
      assert before[..i+1][..i] == before[..i] && before[..i+1][i] == n;
      CountriesGrow(before, i);
      if n.latencyMS.None? || !n.publicHost {
        continue;
      }
      measured := measured + 1;
      if n.latencyMS.value < BATCH_ANOMALY_LATENCY_MS {
        fast := fast + 1;
      }
      if n.countryCode != "" {
        countries := countries + {n.countryCode};
      }
    }
    assert before[..nodes.Length] == before;
    if measured < 10 || |countries| < 2 || fast * 100 < measured * 60 {
      return;
    }
    for i := 0 to nodes.Length
      invariant forall j :: 0 <= j < i ==> nodes[j] == Mark(before[j])
      invariant forall j :: i <= j < nodes.Length ==> nodes[j] == before[j]
    {
      if nodes[i].latencyMS.None? || !nodes[i].publicHost {
        continue;
      }
      nodes[i] := nodes[i].(latencySuspicious := true, lastError := BATCH_NOTE);
    }
  }

  lemma CountriesGrow(nodes: seq<Node>, i: nat)
    requires i < |nodes|
    ensures Countries(nodes[..i+1]) ==
            Countries(nodes[..i]) + if Measured(nodes[i]) && nodes[i].countryCode != "" then {nodes[i].countryCode} else {}
  {
    var a, b := nodes[..i], nodes[..i+1];
    assert forall j :: 0 <= j < i ==> a[j] == b[j];
    forall c | c in Countries(b) ensures c in Countries(a) || (Measured(nodes[i]) && c == nodes[i].countryCode != "") {
      var j :| 0 <= j < |b| && Measured(b[j]) && b[j].countryCode != "" && b[j].countryCode == c;
      if j < i {
        assert a[j].countryCode == c;
      }
    }
    forall c | c in Countries(a) ensures c in Countries(b) {
      var j :| 0 <= j < |a| && Measured(a[j]) && a[j].countryCode != "" && a[j].countryCode == c;
      assert b[j].countryCode == c;
    }
    assert b[i] == nodes[i];
  }

  lemma {:induction false} MarkingKeepsCounts(nodes: seq<Node>)
    ensures MeasuredCount(MarkAll(nodes)) == MeasuredCount(nodes) && FastCount(MarkAll(nodes)) == FastCount(nodes)
  {
    if nodes == [] {
    } else {
      MarkingKeepsCounts(nodes[..|nodes|-1]);
      assert MarkAll(nodes)[..|nodes|-1] == MarkAll(nodes[..|nodes|-1]);
    }
  }

  /** Marking twice is marking once. */
  lemma MarkBatchIsIdempotent(nodes: seq<Node>)
    ensures MarkBatch(MarkBatch(nodes)) == MarkBatch(nodes)
  {
    if Anomalous(nodes) {
      MarkingKeepsCounts(nodes);
      var m := MarkAll(nodes);
      assert Countries(m) == Countries(nodes);
      assert MarkAll(m) == m;
    }
  }

  /** The public nodes with a latency, and those of them below 15 ms. */
  function MeasuredSet(nodes: seq<Node>): set<int> {
    set i | 0 <= i < |nodes| && nodes[i].latencyMS.Some? && nodes[i].publicHost
  }

  function FastSet(nodes: seq<Node>): set<int> {
    set i | 0 <= i < |nodes| && nodes[i].latencyMS.Some? && nodes[i].publicHost && nodes[i].latencyMS.value < 15
  }

  lemma MeasuredGrows(nodes: seq<Node>)
    requires nodes != []
    ensures var front, i := nodes[..|nodes|-1], |nodes| - 1;
            && MeasuredSet(nodes) == MeasuredSet(front) + (if Measured(nodes[i]) then {i} else {})
            && FastSet(nodes) == FastSet(front) + (if Measured(nodes[i]) && nodes[i].latencyMS.value < 15 then {i} else {})
            && i !in MeasuredSet(front) && i !in FastSet(front)
  {
    var front := nodes[..|nodes|-1];
    assert forall i :: 0 <= i < |front| ==> front[i] == nodes[i];
  }

  lemma {:induction false} BatchCounts(nodes: seq<Node>)
    ensures MeasuredCount(nodes) == |MeasuredSet(nodes)| && FastCount(nodes) == |FastSet(nodes)|
  {
    if nodes == [] {
      assert MeasuredSet(nodes) == {} && FastSet(nodes) == {};
    } else {
      BatchCounts(nodes[..|nodes|-1]);
      MeasuredGrows(nodes);
    }
  }

  /** Two measured nodes in different countries. */
  ghost predicate Abroad(nodes: seq<Node>, i: int, j: int) {
    && i in MeasuredSet(nodes) && j in MeasuredSet(nodes)
    && nodes[i].countryCode != "" && nodes[j].countryCode != "" && nodes[i].countryCode != nodes[j].countryCode
  }

  lemma TwoCountries(nodes: seq<Node>)
    ensures |Countries(nodes)| >= 2 <==> exists i, j :: Abroad(nodes, i, j)
  {
    if |Countries(nodes)| >= 2 {
      var a :| a in Countries(nodes);
      var rest := Countries(nodes) - {a};
      assert |rest| >= 1;
      var b :| b in rest;
      var i :| 0 <= i < |nodes| && Measured(nodes[i]) && nodes[i].countryCode != "" && nodes[i].countryCode == a;
      var j :| 0 <= j < |nodes| && Measured(nodes[j]) && nodes[j].countryCode != "" && nodes[j].countryCode == b;
      assert Abroad(nodes, i, j);
    }
    if i, j :| Abroad(nodes, i, j) {
      var pair := {nodes[i].countryCode, nodes[j].countryCode};
      assert pair <= Countries(nodes);
      SubsetIsSmaller(pair, Countries(nodes));
    }
  }

  lemma SubsetIsSmaller<T>(a: set<T>, b: set<T>)
    requires a <= b
    ensures |a| <= |b|
  {
    assert b == a + (b - a);
  }

  /**
   The batch is judged anomalous exactly when at least ten public nodes were measured, in at least two countries, and
   at least six in ten of them below 15 ms; then every one of them is marked, and nothing else ever is.
   */
  lemma MarkBatchOnFields(nodes: seq<Node>, i: nat)
    requires i < |nodes|
    ensures var anomalous := |MeasuredSet(nodes)| >= 10 && (exists j, k :: Abroad(nodes, j, k))
                             && 100 * |FastSet(nodes)| >= 60 * |MeasuredSet(nodes)|;
            && |MarkBatch(nodes)| == |nodes|
            && (anomalous && i in MeasuredSet(nodes) ==>
                  && MarkBatch(nodes)[i].latencySuspicious
                  && MarkBatch(nodes)[i] == nodes[i].(latencySuspicious := true, lastError := MarkBatch(nodes)[i].lastError))
            && (!anomalous || i !in MeasuredSet(nodes) ==> MarkBatch(nodes)[i] == nodes[i])
  {
    BatchCounts(nodes);
    TwoCountries(nodes);
  }

  /** Equal up to the measured latencies of public nodes, and what earlier rules derived from them. */
  predicate SameButLatency(a: Node, b: Node) {
    if Measured(a) then
      Measured(b) &&
      b == a.(latencyMS := b.latencyMS, latencySuspicious := b.latencySuspicious, lastError := b.lastError)
    else a == b
  }

  ghost predicate SameBatch(a: seq<Node>, b: seq<Node>) {
    |a| == |b| && forall i :: 0 <= i < |a| ==> SameButLatency(a[i], b[i])
  }

  lemma {:induction false} FilterOfMarked(a: seq<Node>, b: seq<Node>, now: int)
    requires SameBatch(a, b)
    ensures Map(F.KeyOf, F.Filter(MarkAll(a), now)) == Map(F.KeyOf, F.Filter(MarkAll(b), now))
  {
    if a == [] {
    } else {
      var a', b' := a[..|a|-1], b[..|b|-1];
      FilterOfMarked(a', b', now);
      assert MarkAll(a)[..|a|-1] == MarkAll(a') && MarkAll(b)[..|b|-1] == MarkAll(b');
      var x, y := Mark(a[|a|-1]), Mark(b[|b|-1]);
      assert SameButLatency(a[|a|-1], b[|b|-1]);
      assert F.KeyOf(x) == F.KeyOf(y) && F.Connectable(x, now) == F.Connectable(y, now);
      MapConcat(F.KeyOf, F.Filter(MarkAll(a'), now), if F.Connectable(x, now) then [x] else []);
      MapConcat(F.KeyOf, F.Filter(MarkAll(b'), now), if F.Connectable(y, now) then [y] else []);
    }
  }

  lemma MapConcat<T, U>(f: T -> U, xs: seq<T>, ys: seq<T>)
    ensures Map(f, xs + ys) == Map(f, xs) + Map(f, ys)
  {
  }

  /** The order of the candidates depends on their keys only. */
  lemma SameKeysSameOrder(fa: seq<Node>, fb: seq<Node>)
    requires Map(F.KeyOf, fa) == Map(F.KeyOf, fb)
    ensures Map(F.KeyOf, Sort(F.Before, fa)) == Map(F.KeyOf, Sort(F.Before, fb))
  {
    SortByKey(F.Before, F.KeyBefore, F.KeyOf, fa);
    SortByKey(F.Before, F.KeyBefore, F.KeyOf, fb);
  }

  lemma SameKeysSameIds(sa: seq<Node>, sb: seq<Node>)
    requires Map(F.KeyOf, sa) == Map(F.KeyOf, sb)
    ensures Ids(sa) == Ids(sb)
  {
    assert |sa| == |Map(F.KeyOf, sa)| == |sb|;
    forall i | 0 <= i < |sa| ensures sa[i].id == sb[i].id {
      assert F.KeyOf(sa[i]) == Map(F.KeyOf, sa)[i] == F.KeyOf(sb[i]);
    }
  }

  /** In two anomalous batches that differ only in measured latencies the candidates come in the same order. */
  lemma AnomalousOrderIgnoresLatency(a: seq<Node>, b: seq<Node>, maxAttempts: int, now: int)
    requires Anomalous(a) && Anomalous(b) && SameBatch(a, b)
    ensures Ids(F.Candidates(MarkBatch(a), "", maxAttempts, now)) == Ids(F.Candidates(MarkBatch(b), "", maxAttempts, now))
  {
    var sa, sb := Sort(F.Before, F.Filter(MarkAll(a), now)), Sort(F.Before, F.Filter(MarkAll(b), now));
    FilterOfMarked(a, b, now);
    SameKeysSameOrder(F.Filter(MarkAll(a), now), F.Filter(MarkAll(b), now));
    SameKeysSameIds(sa, sb);
    BestKeepsIds(sa, sb, maxAttempts);
  }

  lemma BestKeepsIds(sa: seq<Node>, sb: seq<Node>, maxAttempts: int)
    requires Ids(sa) == Ids(sb)
    ensures Ids(F.Best(sa, maxAttempts)) == Ids(F.Best(sb, maxAttempts))
  {
    assert |sa| == |Ids(sa)| == |sb|;
    assert forall i :: 0 <= i < |sa| ==> sa[i].id == Ids(sa)[i] == sb[i].id;
  }
}
