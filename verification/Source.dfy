/** The node list as it is fetched (`rowToNode`, `ParseVPNGateCSV` and `Fetch`, from the parsed rows on). */
module Source {
  import opened Prelude
  import opened Nodes
  import opened Remote

  /** What rowToNode gives every accepted row. */
  predicate Fresh(n: Node) {
    && n.grade == Candidate && n.purityScore == 0 && n.status == Unknown
    && n.latencyMS.None? && !n.latencySuspicious && n.cooldownUntil.None?
    && (n.protocol == "tcp" || n.protocol == "udp")
  }

  /** The accepted rows without those whose ID was seen before. */
  function FirstById(rows: seq<Option<Node>>): seq<Node> {
    if rows == [] then []
    else
      var kept, last := FirstById(rows[..|rows|-1]), rows[|rows|-1];
      if last.Some? && last.value.id !in Ids(kept) then kept + [last.value] else kept
  }

  /**
   A row of the list. `address` is the printed IP if it is a public one, `config` the decoded profile if decoding
   succeeds, `names` says which host texts denote the address, and `idFor` builds the cleaned-up ID.
   */
  datatype Row = Row(
    address: Option<string>, config: Option<string>, names: string -> bool, idFor: (int, string) -> string,
    countryCode: string, score: int, ping: int)

  function RowToNode(row: Row): Option<Node> {
    if row.address.None? || row.config.None? then None
    else
      var e := EndpointOf(row.config.value);
      if !row.names(e.host) || e.port < 1 || e.port > 65535 then None
      else if e.protocol != "tcp" && e.protocol != "udp" then None
      else
        Some(Node(row.idFor(e.port, e.protocol), row.address.value, true, e.protocol,
                  if row.countryCode == "" then "XX" else row.countryCode, row.score, row.ping,
                  None, false, 0, 0, Candidate, 0, Unknown, "", None))
  }

  function Accepted(rows: seq<Row>): (r: seq<Option<Node>>)
    ensures |r| == |rows| && forall i :: 0 <= i < |rows| ==> r[i] == RowToNode(rows[i])
  {
    seq(|rows|, i requires 0 <= i < |rows| => RowToNode(rows[i]))
  }

  /** An empty result is an error; a positive limit cuts the list. */
  function Fetched(rows: seq<Row>, maxNodes: int): Result<seq<Node>, ()> {
    var nodes := FirstById(Accepted(rows));
    if nodes == [] then Err(())
    else if maxNodes > 0 && |nodes| > maxNodes then Ok(nodes[..maxNodes])
    else Ok(nodes)
  }

  method Fetch(rows: seq<Row>, maxNodes: int) returns (result: Result<seq<Node>, ()>)
    ensures result == Fetched(rows, maxNodes)
  {
    var seen: set<string> := {};
    var nodes: seq<Node> := [];
    for i := 0 to |rows|
      invariant nodes == FirstById(Accepted(rows)[..i])
      invariant forall id :: id in seen <==> id in Ids(nodes)
    {
      assert Accepted(rows)[..i+1][..i] == Accepted(rows)[..i];
      var row := RowToNode(rows[i]);
      if row.None? {
        continue;
      }
      var node := row.value;
      if node.id in seen {
        continue;
      }
      seen := seen + {node.id};
      assert Ids(nodes + [node]) == Ids(nodes) + [node.id];
      nodes := nodes + [node];
    }
    assert Accepted(rows)[..|rows|] == Accepted(rows);
    if |nodes| == 0 {
      return Err(());
    }
    if maxNodes > 0 && |nodes| > maxNodes {
      nodes := nodes[..maxNodes];
    }
    return Ok(nodes);
  }

  ghost predicate FirstOfItsId(rows: seq<Option<Node>>, i: int) {
    && 0 <= i < |rows| && rows[i].Some?
    && forall j :: 0 <= j < i && rows[j].Some? ==> rows[j].value.id != rows[i].value.id
  }

  lemma {:induction false} KeptIdsComeFromRows(rows: seq<Option<Node>>, id: string)
    requires id in Ids(FirstById(rows))
    ensures exists i :: 0 <= i < |rows| && rows[i].Some? && rows[i].value.id == id
  {
    if rows == [] {
    } else {
      var front, last := rows[..|rows|-1], rows[|rows|-1];
      var kept := FirstById(front);
      if last.Some? && last.value.id !in Ids(kept) {
        assert Ids(FirstById(rows)) == Ids(kept) + [last.value.id];
        if id != last.value.id {
          KeptIdsComeFromRows(front, id);
        }
      } else {
        KeptIdsComeFromRows(front, id);
      }
    }
  }

  lemma {:induction false} KeptAreDistinct(rows: seq<Option<Node>>)
    ensures DistinctIds(FirstById(rows))
    ensures forall i :: 0 <= i < |rows| && rows[i].Some? ==> rows[i].value.id in Ids(FirstById(rows))
  {
    if rows == [] {
    } else {
      var front, last := rows[..|rows|-1], rows[|rows|-1];
      var kept := FirstById(front);
      KeptAreDistinct(front);
      assert rows == front + [last];
      if last.Some? && last.value.id !in Ids(kept) {
        assert Ids(FirstById(rows)) == Ids(kept) + [last.value.id];
        assert forall i :: 0 <= i < |kept| ==> kept[i].id == Ids(kept)[i];
      }
    }
  }

  lemma NewIdIsFirst(rows: seq<Option<Node>>)
    requires rows != [] && rows[|rows|-1].Some?
    requires rows[|rows|-1].value.id !in Ids(FirstById(rows[..|rows|-1]))
    ensures FirstOfItsId(rows, |rows| - 1)
  {
    var front := rows[..|rows|-1];
    KeptAreDistinct(front);
    assert forall j :: 0 <= j < |front| ==> rows[j] == front[j];
  }

  lemma {:induction false} KeptIsFirst(rows: seq<Option<Node>>, n: Node) returns (i: int)
    requires n in FirstById(rows)
    ensures FirstOfItsId(rows, i) && rows[i] == Some(n)
  {
    var front, last := rows[..|rows|-1], rows[|rows|-1];
    if n in FirstById(front) {
      i := KeptIsFirst(front, n);
    } else {
      assert last == Some(n) && n.id !in Ids(FirstById(front));
      NewIdIsFirst(rows);
      i := |rows| - 1;
    }
  }

  lemma {:induction false} FirstIsKept(rows: seq<Option<Node>>, i: int)
    requires FirstOfItsId(rows, i)
    ensures rows[i].value in FirstById(rows)
  {
    var front, last := rows[..|rows|-1], rows[|rows|-1];
    if i < |front| {
      FirstIsKept(front, i);
    } else if last.value.id in Ids(FirstById(front)) {
      KeptIdsComeFromRows(front, last.value.id);
    }
  }

  /** Deduplication keeps, for every ID, exactly its first row. */
  lemma FirstByIdCorrect(rows: seq<Option<Node>>)
    ensures DistinctIds(FirstById(rows))
    ensures forall n :: n in FirstById(rows) <==> exists i :: FirstOfItsId(rows, i) && rows[i] == Some(n)
    ensures forall i :: 0 <= i < |rows| && rows[i].Some? ==> rows[i].value.id in Ids(FirstById(rows))
  {
    KeptAreDistinct(rows);
    forall n | n in FirstById(rows) ensures exists i :: FirstOfItsId(rows, i) && rows[i] == Some(n) {
      var i := KeptIsFirst(rows, n);
    }
    forall i | FirstOfItsId(rows, i) ensures rows[i].value in FirstById(rows) {
      FirstIsKept(rows, i);
    }
  }

  /** The row is a usable one: a public address, and a profile that names it, a port and a protocol. */
  predicate Acceptable(row: Row) {
    && row.address.Some? && row.config.Some?
    && var e := EndpointOf(row.config.value);
       row.names(e.host) && 1 <= e.port <= 65535 && (e.protocol == "tcp" || e.protocol == "udp")
  }

  /** The node stands for the row's own address and for what the row's profile names. */
  predicate Describes(n: Node, row: Row)
    requires Acceptable(row)
  {
    var e := EndpointOf(row.config.value);
    && n.ip == row.address.value && n.publicHost && n.protocol == e.protocol && n.id == row.idFor(e.port, e.protocol)
    && n.score == row.score && n.advertisedPingMS == row.ping
    && n.countryCode == (if row.countryCode == "" then "XX" else row.countryCode)
  }

  /** Every node of a fetched list comes from a usable row. */
  ghost predicate FromRow(n: Node, rows: seq<Row>) {
    exists i :: 0 <= i < |rows| && Acceptable(rows[i]) && Describes(n, rows[i])
  }

  /** A row becomes a node exactly when it is usable. */
  lemma RowAcceptedIff(row: Row)
    ensures RowToNode(row).Some? <==> Acceptable(row)
    ensures RowToNode(row).Some? ==> Describes(RowToNode(row).value, row) && Fresh(RowToNode(row).value)
  {
  }

  /** Kept rows stay in the order of the list. */
  lemma {:induction false} KeptInOrder(rows: seq<Option<Node>>, i: int, j: int, a: int, b: int)
    requires FirstOfItsId(rows, i) && FirstOfItsId(rows, j) && 0 <= a < b < |FirstById(rows)|
    requires rows[i] == Some(FirstById(rows)[a]) && rows[j] == Some(FirstById(rows)[b])
    ensures i < j
  {
    var front, last := rows[..|rows|-1], rows[|rows|-1];
    KeptAreDistinct(rows);
    if i == |front| || j == |front| {
      NewlyKeptIsLast(rows);
      assert b == |FirstById(front)|;
    } else {
      FirstIsKept(front, i);
      FirstIsKept(front, j);
      KeptAreDistinct(front);
      if b < |FirstById(front)| {
        KeptInOrder(front, i, j, a, b);
      }
    }
  }

  lemma NewlyKeptIsLast(rows: seq<Option<Node>>)
    requires rows != [] && FirstOfItsId(rows, |rows| - 1)
    ensures FirstById(rows) == FirstById(rows[..|rows|-1]) + [rows[|rows|-1].value]
  {
    var front, last := rows[..|rows|-1], rows[|rows|-1];
    if last.value.id in Ids(FirstById(front)) {
      KeptIdsComeFromRows(front, last.value.id);
    }
  }

  /** Fetching fails exactly when no row is usable; a positive limit keeps the first so many nodes. */
  lemma FetchedIff(rows: seq<Row>, maxNodes: int)
    ensures Fetched(rows, maxNodes).Err? <==> forall i :: 0 <= i < |rows| ==> !Acceptable(rows[i])
    ensures Fetched(rows, maxNodes).Ok? ==>
              && Fetched(rows, maxNodes).value <= FirstById(Accepted(rows))
              && |Fetched(rows, maxNodes).value|
                 == if 0 < maxNodes < |FirstById(Accepted(rows))| then maxNodes else |FirstById(Accepted(rows))|
  {
    var accepted := Accepted(rows);
    forall i | 0 <= i < |rows| ensures accepted[i].Some? <==> Acceptable(rows[i]) {
      RowAcceptedIff(rows[i]);
    }
    KeptAreDistinct(accepted);
    if FirstById(accepted) != [] {
      var i := KeptIsFirst(accepted, FirstById(accepted)[0]);
      assert Acceptable(rows[i]);
    }
  }

  lemma FetchedNode(rows: seq<Row>, n: Node)
    requires n in FirstById(Accepted(rows))
    ensures Fresh(n) && FromRow(n, rows)
  {
    var i := KeptIsFirst(Accepted(rows), n);
    RowAcceptedIff(rows[i]);
    assert Describes(n, rows[i]);
  }

  /** A fetched list has distinct IDs, no cooldown, no latency and score 0, and each node's profile names its address. */
  lemma FetchedIsFresh(rows: seq<Row>, maxNodes: int)
    requires Fetched(rows, maxNodes).Ok?
    ensures var nodes := Fetched(rows, maxNodes).value;
            DistinctIds(nodes) && ScoresOk(nodes) && forall i :: 0 <= i < |nodes| ==> Fresh(nodes[i]) && FromRow(nodes[i], rows)
  {
    FirstByIdCorrect(Accepted(rows));
    var nodes := FirstById(Accepted(rows));
    forall k | 0 <= k < |nodes| ensures Fresh(nodes[k]) && FromRow(nodes[k], rows) {
      FetchedNode(rows, nodes[k]);
    }
  }
}
