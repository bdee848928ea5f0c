/**
 The goroutines of `TCPProbe.Probe`: one worker per node, a semaphore of `limit` places, shared result slots.
 Every channel operation and every dial is an event of its own; the theorems hold for every schedule.
 */
module ProbePool {
  import opened Prelude
  import opened Nodes
  import P = Probe

  /** `dials[i]` are the outcomes worker `i` will meet, one per sample. */
  datatype Batch = Batch(nodes: seq<Node>, dials: seq<seq<P.Dial>>, limit: nat, samples: nat)

  /** Defaults of the probe settings. */
  function Limit(maxConcurrency: int): (n: nat)
    ensures n > 0
  {
    if maxConcurrency <= 0 then 32 else maxConcurrency
  }

  function Samples(samples: int): (n: nat)
    ensures n > 0
  {
    if samples <= 0 then 3 else samples
  }

  ghost predicate Valid(b: Batch) {
    b.limit > 0 && |b.dials| == |b.nodes| && forall i :: 0 <= i < |b.dials| ==> |b.dials[i]| == b.samples
  }

  /** Where a worker stands; `latencies` and `lastError` are its local variables. */
  datatype Pc =
    | Queued
    | Sampling(done: nat, latencies: seq<int>, lastError: string)
    | Written                     // result written, semaphore still held
    | Done

  datatype State = State(slots: seq<Node>, pcs: seq<Pc>, semaphore: nat)

  function Init(b: Batch): State {
    State(b.nodes, seq(|b.nodes|, i => Queued), 0)
  }

  datatype Event = Acquire(i: nat) | Sample(i: nat) | Finish(i: nat) | Release(i: nat)

  predicate Enabled(b: Batch, s: State, e: Event) {
    && e.i < |s.pcs| == |s.slots| && e.i < |b.dials|
    && match e
       case Acquire(i) => s.pcs[i].Queued? && s.semaphore < b.limit
       case Sample(i) => s.pcs[i].Sampling? && s.pcs[i].done < b.samples && s.pcs[i].done < |b.dials[i]|
       case Finish(i) => s.pcs[i].Sampling? && s.pcs[i].done == b.samples
       case Release(i) => s.pcs[i].Written? && s.semaphore > 0
  }

  function Apply(b: Batch, s: State, e: Event): State
    requires Enabled(b, s, e)
  {
    match e
    case Acquire(i) =>
      var n := s.slots[i];
      if P.IsTcp(n) then
        State(s.slots[i := P.Reset(n, b.samples)], s.pcs[i := Sampling(0, [], "")], s.semaphore + 1)
      else
        State(s.slots[i := P.Reset(n, 0).(status := Unknown, lastError := P.UDP_NOTE)], s.pcs[i := Written], s.semaphore + 1)
    case Sample(i) =>
      var pc, d := s.pcs[i], b.dials[i][s.pcs[i].done];
      s.(pcs := s.pcs[i := match d
        case Refused(error) => Sampling(pc.done + 1, pc.latencies, error)
        case Connected(elapsed) => Sampling(pc.done + 1, pc.latencies + [P.CeilMilliseconds(elapsed)], pc.lastError)])
    case Finish(i) =>
      s.(slots := s.slots[i := P.Conclude(s.slots[i], s.pcs[i].latencies, s.pcs[i].lastError)], pcs := s.pcs[i := Written])
    case Release(i) => State(s.slots, s.pcs[i := Done], s.semaphore - 1)
  }

  predicate IsRun(b: Batch, es: seq<Event>)
    decreases |es|, 0
  {
    es == [] || (IsRun(b, es[..|es|-1]) && Enabled(b, After(b, es[..|es|-1]), es[|es|-1]))
  }

  function After(b: Batch, es: seq<Event>): State
    requires IsRun(b, es)
    decreases |es|, 1
  {
    if es == [] then Init(b) else Apply(b, After(b, es[..|es|-1]), es[|es|-1])
  }

  // ------------------------------------------------------------------ sums over the workers

  function Total(f: Pc -> nat, pcs: seq<Pc>): nat {
    if pcs == [] then 0 else f(pcs[0]) + Total(f, pcs[1..])
  }

  lemma {:induction false} TotalUpdate(f: Pc -> nat, pcs: seq<Pc>, i: nat, pc: Pc)
    requires i < |pcs|
    ensures Total(f, pcs[i := pc]) + f(pcs[i]) == Total(f, pcs) + f(pc)
  {
    if i == 0 {
      assert pcs[i := pc][1..] == pcs[1..];
    } else {
      assert pcs[i := pc][1..] == pcs[1..][i - 1 := pc];
      TotalUpdate(f, pcs[1..], i - 1, pc);
    }
  }

  lemma {:induction false} TotalAtLeast(f: Pc -> nat, pcs: seq<Pc>, i: nat)
    requires i < |pcs|
    ensures Total(f, pcs) >= f(pcs[i])
  {
    if i > 0 {
      TotalAtLeast(f, pcs[1..], i - 1);
    }
  }

  lemma {:induction false} TotalOfZeros(f: Pc -> nat, pcs: seq<Pc>)
    requires forall i :: 0 <= i < |pcs| ==> f(pcs[i]) == 0
    ensures Total(f, pcs) == 0
  {
    if pcs == [] {
    } else {
      TotalOfZeros(f, pcs[1..]);
    }
  }

  function Holds(pc: Pc): nat {
    if pc.Sampling? || pc.Written? then 1 else 0
  }

  // ------------------------------------------------------------------ invariant

  /** What worker `i` has done to its slot so far, and to nothing else. */
  ghost predicate SlotOk(b: Batch, s: State, i: int)
    requires 0 <= i < |b.nodes| == |s.slots| == |s.pcs| && Valid(b)
  {
    match s.pcs[i]
    case Queued => s.slots[i] == b.nodes[i]
    case Sampling(k, ls, err) =>
      && k <= b.samples && P.IsTcp(b.nodes[i]) && s.slots[i] == P.Reset(b.nodes[i], b.samples)
      && ls == P.Latencies(b.dials[i][..k]) && err == P.LastError(b.dials[i][..k])
    case Written => s.slots[i] == P.ProbeNode(b.nodes[i], b.dials[i])
    case Done => s.slots[i] == P.ProbeNode(b.nodes[i], b.dials[i])
  }

  /** The semaphore counts the workers inside it. */
  ghost predicate Inv(b: Batch, s: State) {
    && Valid(b) && |s.slots| == |s.pcs| == |b.nodes|
    && s.semaphore == Total(Holds, s.pcs) && s.semaphore <= b.limit
    && forall i :: 0 <= i < |b.nodes| ==> SlotOk(b, s, i)
  }

  lemma SlotStep(b: Batch, s: State, e: Event)
    requires Inv(b, s) && Enabled(b, s, e)
    ensures var s' := Apply(b, s, e); |s'.slots| == |s'.pcs| == |b.nodes| && SlotOk(b, s', e.i)
  {
    var i := e.i;
    assert SlotOk(b, s, i);
    if e.Sample? {
      var k := s.pcs[i].done;
      assert b.dials[i][..k+1][..k] == b.dials[i][..k];
    } else if e.Finish? {
      assert b.dials[i][..b.samples] == b.dials[i];
      assert P.Conclude(s.slots[i], s.pcs[i].latencies, s.pcs[i].lastError) == P.ProbeNode(b.nodes[i], b.dials[i]);
    }
  }

  lemma InvStep(b: Batch, s: State, e: Event)
    requires Inv(b, s) && Enabled(b, s, e)
    ensures Inv(b, Apply(b, s, e))
  {
    var s' := Apply(b, s, e);
    SlotStep(b, s, e);
    TotalUpdate(Holds, s.pcs, e.i, s'.pcs[e.i]);
    forall i | 0 <= i < |b.nodes| ensures SlotOk(b, s', i) {
      if i != e.i {
        assert SlotOk(b, s, i) && s'.slots[i] == s.slots[i] && s'.pcs[i] == s.pcs[i];
      }
    }
  }

  lemma {:induction false} EveryRunKeepsInv(b: Batch, es: seq<Event>)
    requires Valid(b) && IsRun(b, es)
    ensures Inv(b, After(b, es))
  {
    if es == [] {
      TotalOfZeros(Holds, Init(b).pcs);
    } else {
      EveryRunKeepsInv(b, es[..|es|-1]);
      InvStep(b, After(b, es[..|es|-1]), es[|es|-1]);
    }
  }

  // ------------------------------------------------------------------ consequences for every schedule

  /** Under every schedule at most `limit` workers are inside the semaphore. */
  lemma AtMostLimitInside(b: Batch, es: seq<Event>)
    requires Valid(b) && IsRun(b, es)
    ensures Total(Holds, After(b, es).pcs) <= b.limit
  {
    EveryRunKeepsInv(b, es);
  }

  ghost predicate Finished(s: State) {
    forall i :: 0 <= i < |s.pcs| ==> s.pcs[i].Done?
  }

  /** The sequential meaning: probe every node on its own. */
  function Sequential(b: Batch): (r: seq<Node>)
    requires |b.dials| == |b.nodes|
    ensures |r| == |b.nodes| && forall i :: 0 <= i < |b.nodes| ==> r[i] == P.ProbeNode(b.nodes[i], b.dials[i])
  {
    seq(|b.nodes|, i requires 0 <= i < |b.nodes| => P.ProbeNode(b.nodes[i], b.dials[i]))
  }

  /** The result of a probe after all workers are joined: the sequential result, batch rule applied. */
  function Probed(b: Batch): seq<Node>
    requires |b.dials| == |b.nodes|
  {
    P.MarkBatch(Sequential(b))
  }

  /** Whatever the schedule, when all workers are done the slots hold the sequential result. */
  lemma ScheduleDoesNotMatter(b: Batch, es: seq<Event>)
    requires Valid(b) && IsRun(b, es) && Finished(After(b, es))
    ensures P.MarkBatch(After(b, es).slots) == Probed(b)
  {
    EveryRunKeepsInv(b, es);
    var s := After(b, es);
    forall i | 0 <= i < |b.nodes| ensures s.slots[i] == Sequential(b)[i] {
      assert SlotOk(b, s, i);
    }
    assert s.slots == Sequential(b);
  }

  function Left(samples: nat): Pc -> nat {
    (pc: Pc) =>
      match pc
      case Queued => samples + 3
      case Sampling(k, _, _) => if k <= samples then samples - k + 2 else 0
      case Written => 1
      case Done => 0
  }

  /** No schedule deadlocks: until all workers are done one of them can move. */
  lemma PoolNeverStuck(b: Batch, es: seq<Event>)
    requires Valid(b) && IsRun(b, es) && !Finished(After(b, es))
    ensures exists e :: Enabled(b, After(b, es), e)
  {
    EveryRunKeepsInv(b, es);
    var s := After(b, es);
    if i :| 0 <= i < |s.pcs| && Holds(s.pcs[i]) == 1 {
      assert SlotOk(b, s, i);
      TotalAtLeast(Holds, s.pcs, i);
      var e := if s.pcs[i].Written? then Release(i) else if s.pcs[i].done < b.samples then Sample(i) else Finish(i);
      assert Enabled(b, s, e);
    } else {
      TotalOfZeros(Holds, s.pcs);
      var i :| 0 <= i < |s.pcs| && !s.pcs[i].Done?;
      assert Enabled(b, s, Acquire(i));
    }
  }

  lemma LeftDecreases(b: Batch, s: State, e: Event)
    requires Inv(b, s) && Enabled(b, s, e)
    ensures Total(Left(b.samples), Apply(b, s, e).pcs) < Total(Left(b.samples), s.pcs)
  {
    assert SlotOk(b, s, e.i);
    TotalUpdate(Left(b.samples), s.pcs, e.i, Apply(b, s, e).pcs[e.i]);
  }

  /** Every schedule ends: no run is longer than the work there was at the start. */
  lemma {:induction false} PoolTerminates(b: Batch, es: seq<Event>)
    requires Valid(b) && IsRun(b, es)
    ensures Total(Left(b.samples), After(b, es).pcs) + |es| <= Total(Left(b.samples), Init(b).pcs)
  {
    if es == [] {
    } else {
      PoolTerminates(b, es[..|es|-1]);
      EveryRunKeepsInv(b, es[..|es|-1]);
      LeftDecreases(b, After(b, es[..|es|-1]), es[|es|-1]);
    }
  }

  /** Probing keeps identity, cooldowns and scores, and gives every available node a latency. */
  lemma ProbedKeeps(b: Batch)
    requires |b.dials| == |b.nodes|
    ensures Ids(Probed(b)) == Ids(b.nodes)
    ensures ScoresOk(b.nodes) ==> ScoresOk(Probed(b))
    ensures SameGrades(b.nodes, Probed(b))
    ensures forall i :: 0 <= i < |b.nodes| ==>
              var p := Probed(b)[i];
              && p.cooldownUntil == b.nodes[i].cooldownUntil && p.protocol == b.nodes[i].protocol
              && (p.status == Available <==> p.latencyMS.Some?)
  {
    forall i | 0 <= i < |b.nodes|
      ensures Probed(b)[i].id == b.nodes[i].id && Probed(b)[i].grade == b.nodes[i].grade
      ensures Probed(b)[i].purityScore == b.nodes[i].purityScore && Probed(b)[i].ip == b.nodes[i].ip
      ensures Probed(b)[i].cooldownUntil == b.nodes[i].cooldownUntil && Probed(b)[i].protocol == b.nodes[i].protocol
      ensures Probed(b)[i].status == Available <==> Probed(b)[i].latencyMS.Some?
    {
      P.ProbeNodeMeasures(b.nodes[i], b.dials[i]);
    }
  }
}
