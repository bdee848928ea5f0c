/** Choosing and cooling down exit nodes (`internal/web/failover.go`). */
module Failover {
  import opened Prelude
  import opened Nodes
  import opened Sorting

  predicate Cooling(n: Node, now: int) {
    n.cooldownUntil.Some? && now < n.cooldownUntil.value
  }

  predicate Connectable(n: Node, now: int) {
    n.protocol == "tcp" && n.grade != Rejected && n.status != Unavailable && !Cooling(n, now)
  }

  function NodeRank(n: Node): int {
    (if n.grade == StrictHome then 1000 else 0) + (if n.status == Available then 200 else 0) + n.purityScore
  }

  /** Addition on Go's 64-bit int, for operands in range. */
  function Add64(x: int, y: int): int {
    var sum := x + y;
    if sum >= 0x8000_0000_0000_0000 then sum - 0x1_0000_0000_0000_0000 else sum
  }

  function LatencyRank(n: Node): int {
    if n.latencyMS.Some? && !n.latencySuspicious then n.latencyMS.value
    else if n.advertisedPingMS > 0 then Add64(100_000, n.advertisedPingMS)
    else 1_000_000
  }

  // ------------------------------------------------------------------ the comparator

  /** Go's string order. */
  predicate StringLess(a: string, b: string) {
    b != [] && (a == [] || a[0] < b[0] || (a[0] == b[0] && StringLess(a[1..], b[1..])))
  }

  datatype Key = Key(rank: int, latency: int, score: int, id: string)

  function KeyOf(n: Node): Key {
    Key(NodeRank(n), LatencyRank(n), n.score, n.id)
  }

  predicate KeyBefore(a: Key, b: Key) {
    if a.rank != b.rank then a.rank > b.rank
    else if a.latency != b.latency then a.latency < b.latency
    else if a.score != b.score then a.score > b.score
    else StringLess(a.id, b.id)
  }

  predicate Before(a: Node, b: Node) {
    KeyBefore(KeyOf(a), KeyOf(b))
  }

  lemma {:induction false} StringLessTotal(a: string, b: string)
    ensures StringLess(a, b) ==> !StringLess(b, a)
    ensures a != b ==> StringLess(a, b) || StringLess(b, a)
  {
    if a != [] && b != [] {
      StringLessTotal(a[1..], b[1..]);
      assert a == [a[0]] + a[1..] && b == [b[0]] + b[1..];
    }
  }

  lemma {:induction false} StringLessTransitive(a: string, b: string, c: string)
    requires !StringLess(a, b) && !StringLess(b, c)
    ensures !StringLess(a, c)
  {
    if a != [] && b != [] && c != [] && a[0] == b[0] == c[0] {
      StringLessTransitive(a[1..], b[1..], c[1..]);
    }
  }

  /** The candidate comparator is a strict weak order on all nodes, and total where IDs differ. */
  lemma BeforeIsTotal(nodes: seq<Node>)
    requires DistinctIds(nodes)
    ensures TotalOrderOn(Before, nodes)
  {
    forall x, y | x in nodes && y in nodes
      ensures Before(x, y) ==> !Before(y, x)
      ensures x != y ==> Before(x, y) || Before(y, x)
    {
      StringLessTotal(x.id, y.id);
    }
    forall x, y, z | x in nodes && y in nodes && z in nodes && !Before(x, y) && !Before(y, z)
      ensures !Before(x, z)
    {
      if KeyOf(x).rank == KeyOf(z).rank && KeyOf(x).latency == KeyOf(z).latency && x.score == z.score {
        StringLessTransitive(x.id, y.id, z.id);
      }
    }
  }

  /** On scores the classifier leaves behind, comparing ranks is comparing (strict home, available, score). */
  lemma RankIsLexicographic(a: Node, b: Node)
    requires ScoreOk(a) && ScoreOk(b)
    ensures NodeRank(a) > NodeRank(b) <==>
              if (a.grade == StrictHome) != (b.grade == StrictHome) then a.grade == StrictHome
              else if (a.status == Available) != (b.status == Available) then a.status == Available
              else a.purityScore > b.purityScore
  {
  }

  // ------------------------------------------------------------------ candidate lists

  function Filter(nodes: seq<Node>, now: int): seq<Node> {
    if nodes == [] then []
    else Filter(nodes[..|nodes|-1], now)
         + (if Connectable(nodes[|nodes|-1], now) then [nodes[|nodes|-1]] else [])
  }

  function Best(sorted: seq<Node>, maxAttempts: int): seq<Node> {
    if maxAttempts <= 0 || maxAttempts > |sorted| then sorted else sorted[..maxAttempts]
  }

  function Find(nodes: seq<Node>, id: string, now: int): seq<Node> {
    if nodes == [] then []
    else if nodes[0].id == id && Connectable(nodes[0], now) then [nodes[0]]
    else Find(nodes[1..], id, now)
  }

  function Candidates(nodes: seq<Node>, requestedId: string, maxAttempts: int, now: int): seq<Node> {
    if requestedId != "" then Find(nodes, requestedId, now)
    else Best(Sort(Before, Filter(nodes, now)), maxAttempts)
  }

  method ConnectionCandidates(nodes: seq<Node>, requestedId: string, maxAttempts: int, now: int)
    returns (candidates: seq<Node>)
    ensures candidates == Candidates(nodes, requestedId, maxAttempts, now)
  {
    if requestedId != "" {
      for i := 0 to |nodes|
        invariant Find(nodes, requestedId, now) == Find(nodes[i..], requestedId, now)
      {
        if nodes[i].id == requestedId && Connectable(nodes[i], now) {
          return [nodes[i]];
        }
      }
      return [];
    }
    candidates := [];
    for i := 0 to |nodes|
      invariant candidates == Filter(nodes[..i], now)
    {
      assert nodes[..i+1][..i] == nodes[..i];
      if Connectable(nodes[i], now) {
        candidates := candidates + [nodes[i]];
      }
    }
    assert nodes[..|nodes|] == nodes;
    candidates := Sort(Before, candidates);
    if !(maxAttempts <= 0 || maxAttempts > |candidates|) {
      candidates := candidates[..maxAttempts];
    }
  }

  lemma {:induction false} FilterElements(nodes: seq<Node>, now: int)
    ensures forall n :: n in Filter(nodes, now) <==> n in nodes && Connectable(n, now)
    ensures DistinctIds(nodes) ==> DistinctIds(Filter(nodes, now))
  {
    if nodes == [] {
    } else {
      var front, last := nodes[..|nodes|-1], nodes[|nodes|-1];
      FilterElements(front, now);
      assert nodes == front + [last];
      if DistinctIds(nodes) {
        assert forall n :: n in front ==> n.id != last.id;
        var kept := Filter(front, now);
        assert forall i :: 0 <= i < |kept| ==> kept[i] in kept;
      }
    }
  }

  lemma {:induction false} FilterMultiset(nodes: seq<Node>, now: int, n: Node)
    ensures multiset(Filter(nodes, now))[n] == if Connectable(n, now) then multiset(nodes)[n] else 0
  {
    if nodes == [] {
    } else {
      var front, last := nodes[..|nodes|-1], nodes[|nodes|-1];
      FilterMultiset(front, now, n);
      assert nodes == front + [last];
    }
  }

  /** With distinct IDs the candidate list does not depend on the order of the node cache. */
  lemma CandidatesIgnoreNodeOrder(nodes: seq<Node>, shuffled: seq<Node>, maxAttempts: int, now: int)
    requires DistinctIds(nodes) && multiset(nodes) == multiset(shuffled)
    ensures Candidates(nodes, "", maxAttempts, now) == Candidates(shuffled, "", maxAttempts, now)
  {
    var a, b := Filter(nodes, now), Filter(shuffled, now);
    forall n ensures multiset(a)[n] == multiset(b)[n] {
      FilterMultiset(nodes, now, n);
      FilterMultiset(shuffled, now, n);
    }
    assert multiset(a) == multiset(b);
    FilterElements(nodes, now);
    BeforeIsTotal(a);
    SortIgnoresInputOrder(Before, a, b);
  }

  /**
   What an automatic candidate list is for: connectable nodes, best first, as many as asked for, and nothing
   better left out.
   */
  ghost predicate IsBest(nodes: seq<Node>, maxAttempts: int, now: int, r: seq<Node>) {
    && (forall n :: n in r ==> n in nodes && Connectable(n, now))
    && (forall i, j :: 0 <= i < j < |r| ==> Before(r[i], r[j]))
    && (forall x, n :: x in r && n in nodes && Connectable(n, now) && n !in r ==> Before(x, n))
    && (if maxAttempts > 0 && maxAttempts < |Filter(nodes, now)| then |r| == maxAttempts
        else |r| == |Filter(nodes, now)|)
  }

  lemma StrictlySorted(nodes: seq<Node>, now: int)
    requires DistinctIds(nodes)
    ensures var s := Sort(Before, Filter(nodes, now));
            && (forall n :: n in s <==> n in nodes && Connectable(n, now))
            && |s| == |Filter(nodes, now)|
            && (forall i, j :: 0 <= i < j < |s| ==> Before(s[i], s[j]) && s[i].id != s[j].id)
  {
    var f := Filter(nodes, now);
    FilterElements(nodes, now);
    BeforeIsTotal(f);
    SortIsStableSort(Before, f);
    SortPermutes(Before, f);
    var s := Sort(Before, f);
    forall i, j | 0 <= i < j < |s| ensures Before(s[i], s[j]) && s[i].id != s[j].id {
      NoDuplicates(f, s, i, j);
      assert s[i] in f && s[j] in f;
      StringLessTotal(s[i].id, s[j].id);
    }
  }

  lemma NoDuplicates(f: seq<Node>, s: seq<Node>, i: nat, j: nat)
    requires DistinctIds(f) && multiset(f) == multiset(s) && i < j < |s|
    ensures s[i].id != s[j].id
  {
    SameElements(f, s);
    assert s[i] in f && s[j] in f;
    if s[i] == s[j] {
      CountsTwice(s, i, j);
      DistinctCount(f, s[i]);
    }
  }

  lemma CountsTwice(s: seq<Node>, i: nat, j: nat)
    requires i < j < |s| && s[i] == s[j]
    ensures multiset(s)[s[i]] >= 2
  {
    assert s == s[..j] + s[j..];
    assert s[i] in s[..j] && s[j] in s[j..];
  }

  lemma {:induction false} DistinctCount(f: seq<Node>, x: Node)
    requires DistinctIds(f)
    ensures multiset(f)[x] <= 1
  {
    if f == [] {
    } else {
      var front, last := f[..|f|-1], f[|f|-1];
      assert f == front + [last];
      DistinctCount(front, x);
      if x == last {
        assert forall n :: n in front ==> n.id != last.id;
        assert x !in front;
      }
    }
  }

  /** The list computed is a best list, and there is no other: ranking, cut-off and order are all determined. */
  lemma CandidatesAreTheBest(nodes: seq<Node>, maxAttempts: int, now: int, r: seq<Node>)
    requires DistinctIds(nodes)
    ensures IsBest(nodes, maxAttempts, now, r) <==> r == Candidates(nodes, "", maxAttempts, now)
  {
    StrictlySorted(nodes, now);
    var s := Sort(Before, Filter(nodes, now));
    var c := Candidates(nodes, "", maxAttempts, now);
    assert c == s[..|c|];
    if IsBest(nodes, maxAttempts, now, r) {
      FilterElements(nodes, now);
      BeforeIsTotal(nodes);
      PrefixOfSorted(nodes, s, r);
    }
  }

  /** A strictly increasing selection that leaves nothing smaller out is a prefix of the whole. */
  lemma {:induction false} PrefixOfSorted(nodes: seq<Node>, s: seq<Node>, r: seq<Node>)
    requires TotalOrderOn(Before, nodes) && (forall n :: n in s ==> n in nodes) && |r| <= |s|
    requires forall i, j :: 0 <= i < j < |s| ==> Before(s[i], s[j])
    requires forall i, j :: 0 <= i < j < |r| ==> Before(r[i], r[j])
    requires forall n :: n in r ==> n in s
    requires forall x, n :: x in r && n in s && n !in r ==> Before(x, n)
    ensures r == s[..|r|]
  {
    if r == [] {
    } else {
      var x, y := r[0], s[0];
      assert x in s && x in r && y in s;
      assert x == y;
      forall n | n in r[1..] ensures n in s[1..] {
        assert n in s && Before(x, n);
        assert s == [y] + s[1..];
      }
      forall a, n | a in r[1..] && n in s[1..] && n !in r[1..] ensures Before(a, n) {
        assert Before(y, n);
        assert r == [x] + r[1..];
      }
      PrefixOfSorted(nodes, s[1..], r[1..]);
    }
  }

  /** Raising the limit only appends candidates, and no limit gives them all. */
  lemma MoreAttemptsExtend(nodes: seq<Node>, k: int, m: int, now: int)
    requires k > 0 && (m <= 0 || k <= m)
    ensures Candidates(nodes, "", k, now) <= Candidates(nodes, "", m, now)
    ensures |Candidates(nodes, "", k, now)| <= k
  {
  }

  /** No candidate list, automatic or by ID, holds a node that is cooling down. */
  lemma CandidatesAreConnectable(nodes: seq<Node>, requestedId: string, maxAttempts: int, now: int)
    ensures forall n :: n in Candidates(nodes, requestedId, maxAttempts, now) ==> n in nodes && Connectable(n, now)
    ensures requestedId != "" ==>
              forall n :: n in Candidates(nodes, requestedId, maxAttempts, now) ==> n.id == requestedId
    ensures |Candidates(nodes, requestedId, maxAttempts, now)| == 0 <==>
              forall n :: n in nodes && (requestedId == "" || n.id == requestedId) ==> !Connectable(n, now)
  {
    if requestedId == "" {
      FilterElements(nodes, now);
      SortPermutes(Before, Filter(nodes, now));
      assert Candidates(nodes, "", maxAttempts, now) <= Sort(Before, Filter(nodes, now));
      if Filter(nodes, now) != [] {
        assert Filter(nodes, now)[0] in Filter(nodes, now);
      }
    } else {
      FindCorrect(nodes, requestedId, now);
    }
  }

  lemma {:induction false} FindCorrect(nodes: seq<Node>, id: string, now: int)
    ensures forall n :: n in Find(nodes, id, now) ==> n in nodes && n.id == id && Connectable(n, now)
    ensures Find(nodes, id, now) == [] <==> forall n :: n in nodes && n.id == id ==> !Connectable(n, now)
    ensures |Find(nodes, id, now)| <= 1
  {
    if nodes == [] {
    } else {
      FindCorrect(nodes[1..], id, now);
      assert nodes == [nodes[0]] + nodes[1..];
    }
  }

  // ------------------------------------------------------------------ cooling nodes down

  function Failed(n: Node, message: string, cooldown: int, now: int): Node {
    n.(status := Cooldown, lastError := message,
       cooldownUntil := if cooldown > 0 then Some(now + cooldown) else n.cooldownUntil)
  }

  function MarkFailure(nodes: seq<Node>, id: string, message: string, cooldown: int, now: int): seq<Node> {
    if nodes == [] then []
    else if nodes[0].id == id then [Failed(nodes[0], message, cooldown, now)] + nodes[1..]
    else [nodes[0]] + MarkFailure(nodes[1..], id, message, cooldown, now)
  }

  lemma MarkFrom(nodes: seq<Node>, i: nat, id: string, message: string, cooldown: int, now: int)
    requires i < |nodes|
    ensures nodes[..i] + MarkFailure(nodes[i..], id, message, cooldown, now)
            == if nodes[i].id == id then nodes[i := Failed(nodes[i], message, cooldown, now)]
               else nodes[..i+1] + MarkFailure(nodes[i+1..], id, message, cooldown, now)
  {
    assert nodes[i..][1..] == nodes[i+1..];
  }

  method MarkNodeFailure(nodes: seq<Node>, id: string, message: string, cooldown: int, now: int)
    returns (result: seq<Node>)
    ensures result == MarkFailure(nodes, id, message, cooldown, now)
  {
    result := nodes;
    for i := 0 to |result|
      invariant result == nodes
      invariant MarkFailure(nodes, id, message, cooldown, now)
                == nodes[..i] + MarkFailure(nodes[i..], id, message, cooldown, now)
    {
      MarkFrom(nodes, i, id, message, cooldown, now);
      if result[i].id != id {
        continue;
      }
      var n := result[i].(status := Cooldown, lastError := message);
      if cooldown > 0 {
        n := n.(cooldownUntil := Some(now + cooldown));
      }
      result := result[i := n];
      break;
    }
  }

  /** Exactly the node of that ID is cooled down; every other node is untouched. */
  lemma {:induction false} MarkFailureEffect(nodes: seq<Node>, id: string, message: string, cooldown: int, now: int)
    requires DistinctIds(nodes)
    ensures var r := MarkFailure(nodes, id, message, cooldown, now);
            && |r| == |nodes| && Ids(r) == Ids(nodes)
            && forall i :: 0 <= i < |nodes| ==>
                 r[i] == if nodes[i].id == id then Failed(nodes[i], message, cooldown, now) else nodes[i]
  {
    if nodes != [] && nodes[0].id != id {
      MarkFailureEffect(nodes[1..], id, message, cooldown, now);
    }
  }

  /** The nodes of the previous cache that are still cooling; of two with one ID the later counts. */
  function CoolingById(previous: seq<Node>, now: int): map<string, Node> {
    if previous == [] then map[]
    else
      var rest, last := CoolingById(previous[..|previous|-1], now), previous[|previous|-1];
      if Cooling(last, now) then rest[last.id := last] else rest
  }

  function KeepCooldown(n: Node, cooling: map<string, Node>): Node {
    if n.id in cooling then
      n.(status := Cooldown, cooldownUntil := cooling[n.id].cooldownUntil, lastError := cooling[n.id].lastError)
    else n
  }

  function PreserveCooldowns(nodes: seq<Node>, previous: seq<Node>, now: int): (r: seq<Node>)
    ensures |r| == |nodes| && Ids(r) == Ids(nodes)
    ensures forall i :: 0 <= i < |nodes| ==> r[i] == KeepCooldown(nodes[i], CoolingById(previous, now))
  {
    seq(|nodes|, i requires 0 <= i < |nodes| => KeepCooldown(nodes[i], CoolingById(previous, now)))
  }

  method PreserveNodeCooldowns(nodes: seq<Node>, previous: seq<Node>, now: int) returns (result: seq<Node>)
    ensures result == PreserveCooldowns(nodes, previous, now)
  {
    var byId: map<string, Node> := map[];
    for i := 0 to |previous|
      invariant byId == CoolingById(previous[..i], now)
    {
      assert previous[..i+1][..i] == previous[..i];
      if previous[i].cooldownUntil.Some? && now < previous[i].cooldownUntil.value {
        byId := byId[previous[i].id := previous[i]];
      }
    }
    assert previous[..|previous|] == previous;
    result := nodes;
    for i := 0 to |result|
      invariant |result| == |nodes|
      invariant forall j :: i <= j < |nodes| ==> result[j] == nodes[j]
      invariant forall j :: 0 <= j < i ==> result[j] == KeepCooldown(nodes[j], byId)
    {
      if result[i].id !in byId {
        continue;
      }
      var kept := byId[result[i].id];
      result := result[i := result[i].(status := Cooldown, cooldownUntil := kept.cooldownUntil, lastError := kept.lastError)];
    }
  }

  lemma {:induction false} CoolingByIdCorrect(previous: seq<Node>, now: int)
    requires DistinctIds(previous)
    ensures forall id :: id in CoolingById(previous, now) ==>
              var p := CoolingById(previous, now)[id]; p.id == id && p in previous && Cooling(p, now)
    ensures forall p :: p in previous && Cooling(p, now) ==>
              p.id in CoolingById(previous, now) && CoolingById(previous, now)[p.id] == p
  {
    if previous == [] {
    } else {
      var front, last := previous[..|previous|-1], previous[|previous|-1];
      CoolingByIdCorrect(front, now);
      assert previous == front + [last];
      assert forall p :: p in front ==> p.id != last.id;
    }
  }

  lemma {:induction false} AbsentIsNotCooling(previous: seq<Node>, now: int, id: string)
    requires id !in Ids(previous)
    ensures id !in CoolingById(previous, now)
  {
    if previous == [] {
    } else {
      var front := previous[..|previous|-1];
      assert forall i :: 0 <= i < |front| ==> Ids(front)[i] == Ids(previous)[i];
      assert Ids(previous)[|previous|-1] == previous[|previous|-1].id;
      AbsentIsNotCooling(front, now, id);
    }
  }

  /**
   A freshly fetched node is cooling after a refresh if and only if the previous cache held it cooling, and
   then with the same deadline: a cooldown survives exactly as long as every fetch in between keeps the node.
   */
  lemma RefreshKeepsCooldown(nodes: seq<Node>, previous: seq<Node>, now: int, i: nat)
    requires DistinctIds(previous) && i < |nodes| && nodes[i].cooldownUntil.None?
    ensures var r := PreserveCooldowns(nodes, previous, now)[i];
            && (Cooling(r, now) <==> exists p :: p in previous && p.id == nodes[i].id && Cooling(p, now))
            && (forall p :: p in previous && p.id == nodes[i].id && Cooling(p, now) ==>
                  r.cooldownUntil == p.cooldownUntil && r.status == Cooldown && r.lastError == p.lastError)
  {
    CoolingByIdCorrect(previous, now);
    var r := PreserveCooldowns(nodes, previous, now)[i];
    if Cooling(r, now) {
      assert nodes[i].id in CoolingById(previous, now);
    }
  }
}
