/**
 The life of one tunnel session (`vpnSession`): dialers, closers of handed-out sockets, the teardown
 body guarded by `closeOnce`, and the three bridge workers.

 Every critical section of `connMu` is one atomic event; whatever the code does outside the lock (the
 network dial, `conn.Close`, `vpn.Close`, ...) is an event of its own, so any other goroutine may run in
 between. A run is a sequence of events; every theorem quantifies over all of them.
 */
module Session {
  import opened Prelude

  type Dialer = nat
  type Conn = nat

  /** The fields protected by `connMu`. `parked` says that the teardown body sleeps in `connCond.Wait`. */
  datatype Shared = Shared(closing: bool, activeDials: int, connections: set<Conn>, parked: bool)

  function AdmitDial(sh: Shared): Shared {
    sh.(activeDials := sh.activeDials + 1)
  }

  function TrackDial(sh: Shared, c: Conn): Shared {
    sh.(connections := sh.connections + {c}, activeDials := sh.activeDials - 1, parked := false)
  }

  function ReleaseDial(sh: Shared): Shared {
    sh.(activeDials := sh.activeDials - 1, parked := false)
  }

  function Untrack(sh: Shared, c: Conn): Shared {
    sh.(connections := sh.connections - {c}, parked := false)
  }

  function RefuseDials(sh: Shared): Shared {
    sh.(closing := true)
  }

  predicate MustWait(sh: Shared) {
    sh.connections != {} || sh.activeDials > 0
  }

  /** What any number of steps of the other goroutines can do to a closing session. */
  predicate OnlyShrinks(before: Shared, after: Shared) {
    && (before.closing ==> after.closing)
    && after.connections <= before.connections && after.activeDials <= before.activeDials
  }

  /** Where a goroutine inside `dialContext` stands. */
  datatype DialPc =
    | InFlight                             // counted, inside the network dial
    | Returned(got: Option<Conn>)          // the network dial returned, the lock not yet taken
    | Discarding(held: Option<Conn>)       // not handing out: about to close what it holds
    | Releasing                            // about to give back its count
    | Finished(handed: Option<Conn>)

  /** Where the user of a handed-out socket stands in `trackedConn.Close`. */
  datatype HandlePc = Open | Untracking | Released

  datatype WorkerPc = Running | Reporting | Exited

  /** Where the teardown body stands. */
  datatype BodyPc =
    | Idle                                 // nobody has called close
    | Entered                              // inside closeOnce, before the lock
    | Sweep(left: set<Conn>)               // closing the tracked sockets, `left` still to do
    | SweepUntrack(current: Conn, left: set<Conn>)
    | Waiting                              // VPN closed, inside waitConnections
    | Drained                              // no socket and no dial left
    | DeviceDown
    | Joined                               // bridge workers joined
    | Over                                 // `closed` is closed

  datatype State = State(
    sh: Shared,
    dials: map<Dialer, DialPc>,
    handles: map<Conn, HandlePc>,
    body: BodyPc,
    workers: seq<WorkerPc>,
    slot: bool,                            // an error waits in the one-slot `done` channel
    made: set<Conn>,                     // every socket a network dial ever produced
    shut: set<Conn>)                       // every socket whose Close has been called

  const INIT := State(Shared(false, 0, {}, false), map[], map[], Idle, [Running, Running, Running], false, {}, {})

  datatype Event =
    | DialAdmit(t: Dialer)
    | DialRefuse(t: Dialer)
    | DialReturn(t: Dialer, got: Option<Conn>)
    | DialTrack(t: Dialer)
    | DialReject(t: Dialer)
    | DialDiscard(t: Dialer)
    | DialRelease(t: Dialer)
    | HandleShut(c: Conn)
    | HandleUntrack(c: Conn)
    | CloseCall                            // somebody calls session.close
    | Refuse
    | SocketShut(c: Conn)
    | SocketUntrack
    | VpnClose
    | WaitSleep
    | WaitPass
    | DeviceClose
    | WorkersJoin
    | SignalClosed
    | WorkerStop(w: nat, reports: bool)
    | WorkerReport(w: nat, sent: bool)
    | TakeError                            // the watcher receives from `done`

  predicate At(s: State, t: Dialer, pc: DialPc) {
    t in s.dials && s.dials[t] == pc
  }

  /** What the program and its environment allow. A successful dial yields a socket never seen before. */
  predicate Enabled(s: State, e: Event) {
    match e
    case DialAdmit(t) => t !in s.dials && !s.sh.closing
    case DialRefuse(t) => t !in s.dials && s.sh.closing
    case DialReturn(t, got) => At(s, t, InFlight) && (got.Some? ==> got.value !in s.made)
    case DialTrack(t) => t in s.dials && s.dials[t].Returned? && s.dials[t].got.Some? && !s.sh.closing
    case DialReject(t) => t in s.dials && s.dials[t].Returned? && (s.dials[t].got.None? || s.sh.closing)
    case DialDiscard(t) => t in s.dials && s.dials[t].Discarding?
    case DialRelease(t) => At(s, t, Releasing)
    case HandleShut(c) => c in s.handles && s.handles[c] == Open
    case HandleUntrack(c) => c in s.handles && s.handles[c] == Untracking
    case CloseCall => true
    case Refuse => s.body == Entered
    case SocketShut(c) => s.body.Sweep? && c in s.body.left
    case SocketUntrack => s.body.SweepUntrack?
    case VpnClose => s.body == Sweep({})
    case WaitSleep => s.body == Waiting && !s.sh.parked && MustWait(s.sh)
    case WaitPass => s.body == Waiting && !s.sh.parked && !MustWait(s.sh)
    case DeviceClose => s.body == Drained
    case WorkersJoin => s.body == DeviceDown && forall w | 0 <= w < |s.workers| :: s.workers[w] == Exited
    case SignalClosed => s.body == Joined
    case WorkerStop(w, _) => w < |s.workers| && s.workers[w] == Running
    // select: sending needs a free slot; giving up needs a cancelled context or a full slot
    case WorkerReport(w, sent) =>
      w < |s.workers| && s.workers[w] == Reporting && (if sent then !s.slot else s.slot || s.sh.closing)
    case TakeError => s.slot
  }

  function WithDial(s: State, t: Dialer, pc: DialPc, sh: Shared): State {
    s.(dials := s.dials[t := pc], sh := sh)
  }

  function Apply(s: State, e: Event): State
    requires Enabled(s, e)
  {
    match e
    case DialAdmit(t) => WithDial(s, t, InFlight, AdmitDial(s.sh))
    case DialRefuse(t) => WithDial(s, t, Finished(None), s.sh)
    case DialReturn(t, got) =>
      WithDial(s, t, Returned(got), s.sh).(made := if got.Some? then s.made + {got.value} else s.made)
    case DialTrack(t) =>
      var c := s.dials[t].got.value;
      WithDial(s, t, Finished(Some(c)), TrackDial(s.sh, c)).(handles := s.handles[c := Open])
    case DialReject(t) => WithDial(s, t, Discarding(s.dials[t].got), s.sh)
    case DialDiscard(t) =>
      var held := s.dials[t].held;
      WithDial(s, t, Releasing, s.sh).(shut := if held.Some? then s.shut + {held.value} else s.shut)
    case DialRelease(t) => WithDial(s, t, Finished(None), ReleaseDial(s.sh))
    case HandleShut(c) => s.(handles := s.handles[c := Untracking], shut := s.shut + {c})
    case HandleUntrack(c) => s.(handles := s.handles[c := Released], sh := Untrack(s.sh, c))
    case CloseCall => if s.body == Idle then s.(body := Entered) else s
    case Refuse => s.(sh := RefuseDials(s.sh), body := Sweep(s.sh.connections))
    case SocketShut(c) => s.(shut := s.shut + {c}, body := SweepUntrack(c, s.body.left - {c}))
    case SocketUntrack => s.(sh := Untrack(s.sh, s.body.current), body := Sweep(s.body.left))
    case VpnClose => s.(body := Waiting)
    case WaitSleep => s.(sh := s.sh.(parked := true))
    case WaitPass => s.(body := Drained)
    case DeviceClose => s.(body := DeviceDown)
    case WorkersJoin => s.(body := Joined)
    case SignalClosed => s.(body := Over)
    case WorkerStop(w, reports) => s.(workers := s.workers[w := if reports then Reporting else Exited])
    case WorkerReport(w, sent) => s.(workers := s.workers[w := Exited], slot := s.slot || sent)
    case TakeError => s.(slot := false)
  }

  /** `After(s, es)` is the state the run `es` leads to from `s`. */
  predicate IsRun(s: State, es: seq<Event>)
    decreases |es|, 0
  {
    es == [] || (IsRun(s, es[..|es|-1]) && Enabled(After(s, es[..|es|-1]), es[|es|-1]))
  }

  function After(s: State, es: seq<Event>): State
    requires IsRun(s, es)
    decreases |es|, 1
  {
    if es == [] then s else Apply(After(s, es[..|es|-1]), es[|es|-1])
  }

  // ------------------------------------------------------------------ counting

  function Weight(pc: DialPc): nat {
    match pc
    case InFlight => 4
    case Returned(_) => 3
    case Discarding(_) => 2
    case Releasing => 1
    case Finished(_) => 0
  }

  /** The dialers with at least `k` steps to go; with `k == 1`, those between increment and decrement. */
  function DialsAt(d: map<Dialer, DialPc>, k: nat): set<Dialer> {
    set t | t in d && Weight(d[t]) >= k
  }

  lemma DialsAtUpdate(d: map<Dialer, DialPc>, t: Dialer, pc: DialPc, k: nat)
    requires k > 0
    ensures |DialsAt(d[t := pc], k)| ==
            |DialsAt(d, k)| + (if Weight(pc) >= k then 1 else 0) - (if t in d && Weight(d[t]) >= k then 1 else 0)
  {
    if Weight(pc) >= k {
      assert DialsAt(d[t := pc], k) == DialsAt(d, k) + {t};
    } else {
      assert DialsAt(d[t := pc], k) == DialsAt(d, k) - {t};
    }
  }

  // ------------------------------------------------------------------ invariants

  /** `activeDials` is the number of goroutines between the increment and their decrement. */
  ghost predicate Counting(s: State) {
    s.sh.activeDials == |DialsAt(s.dials, 1)|
  }

  predicate Holds(pc: DialPc, c: Conn) {
    pc == Returned(Some(c)) || pc == Discarding(Some(c))
  }

  ghost predicate Held(d: map<Dialer, DialPc>, c: Conn) {
    exists t :: t in d && Holds(d[t], c)
  }

  /** No socket is lost: each was closed, is tracked, or is in the hands of a counted dial. */
  ghost predicate Accounted(s: State) {
    forall c :: c in s.made ==> c in s.shut || c in s.sh.connections || Held(s.dials, c)
  }

  /** Only sockets that dials produced are tracked, handed out or closed. */
  ghost predicate Origin(s: State) {
    && s.sh.connections <= s.handles.Keys <= s.made
    && s.shut <= s.made
    && (s.body.Sweep? || s.body.SweepUntrack? ==> s.body.left <= s.handles.Keys)
    && (s.body.SweepUntrack? ==> s.body.current in s.shut)
    && (forall c :: c in s.handles && s.handles[c] != Open ==> c in s.shut)
  }

  /** A socket held by a dial is held by no other dial, was not handed out and was not closed. */
  ghost predicate Exclusive(s: State) {
    HeldIsFresh(s) && HeldOnce(s)
  }

  ghost predicate HeldIsFresh(s: State) {
    forall t, c :: t in s.dials && Holds(s.dials[t], c) ==> c in s.made && c !in s.shut && c !in s.handles
  }

  ghost predicate HeldOnce(s: State) {
    forall t, u, c :: t in s.dials && u in s.dials && Holds(s.dials[t], c) && Holds(s.dials[u], c) ==> t == u
  }

  /**
   A tracked socket was handed out and its user has not released it; and until the teardown begins, every such
   socket is tracked.
   */
  ghost predicate Tracking(s: State) {
    && (forall c :: c in s.sh.connections ==> c in s.handles && s.handles[c] != Released)
    && (s.body == Idle || s.body == Entered ==>
          forall c :: c in s.handles && s.handles[c] != Released ==> c in s.sh.connections)
  }

  /** What the teardown body has achieved at each of its points. */
  ghost predicate Phase(s: State) {
    && (s.sh.closing <==> s.body != Idle && s.body != Entered)
    && (s.body.Sweep? ==> s.sh.connections <= s.body.left)
    && (s.body.SweepUntrack? ==> s.sh.connections <= s.body.left + {s.body.current})
    && (s.body in {Waiting, Drained, DeviceDown, Joined, Over} ==> s.sh.connections == {})
    && (s.body in {Drained, DeviceDown, Joined, Over} ==> s.sh.activeDials == 0)
    && (s.sh.parked ==> s.body == Waiting && MustWait(s.sh))
    && |s.workers| == 3
  }

  ghost predicate Inv(s: State) {
    Counting(s) && Accounted(s) && Origin(s) && Exclusive(s) && Tracking(s) && Phase(s)
  }

  lemma CountingStep(s: State, e: Event)
    requires Counting(s) && Enabled(s, e)
    ensures Counting(Apply(s, e))
  {
    match e
    case DialAdmit(t) => DialsAtUpdate(s.dials, t, InFlight, 1);
    case DialRefuse(t) => DialsAtUpdate(s.dials, t, Finished(None), 1);
    case DialReturn(t, got) => DialsAtUpdate(s.dials, t, Returned(got), 1);
    case DialTrack(t) => DialsAtUpdate(s.dials, t, Finished(s.dials[t].got), 1);
    case DialReject(t) => DialsAtUpdate(s.dials, t, Discarding(s.dials[t].got), 1);
    case DialDiscard(t) => DialsAtUpdate(s.dials, t, Releasing, 1);
    case DialRelease(t) => DialsAtUpdate(s.dials, t, Finished(None), 1);
    case _ =>
  }

  lemma AccountedStep(s: State, e: Event)
    requires Inv(s) && Enabled(s, e)
    ensures Accounted(Apply(s, e))
  {
    var s' := Apply(s, e);
    forall c | c in s'.made
      ensures c in s'.shut || c in s'.sh.connections || Held(s'.dials, c)
    {
      if c in s.made && c !in s.shut && c !in s.sh.connections {
        var u :| u in s.dials && Holds(s.dials[u], c);
        assert u in s'.dials;
        assert c in s'.shut || c in s'.sh.connections || Holds(s'.dials[u], c);
      } else if c !in s.made {
        assert Holds(s'.dials[e.t], c);
      } else if c !in s'.shut {
        assert c in s.sh.connections;
      }
    }
  }

  lemma OriginStep(s: State, e: Event)
    requires Origin(s) && HeldIsFresh(s) && Enabled(s, e)
    ensures Origin(Apply(s, e))
  {
  }

  lemma HeldIsFreshStep(s: State, e: Event)
    requires Origin(s) && Exclusive(s) && Enabled(s, e)
    ensures HeldIsFresh(Apply(s, e))
  {
  }

  lemma HeldOnceStep(s: State, e: Event)
    requires Exclusive(s) && Enabled(s, e)
    ensures HeldOnce(Apply(s, e))
  {
  }

  lemma TrackingStep(s: State, e: Event)
    requires Tracking(s) && Enabled(s, e)
    ensures Tracking(Apply(s, e))
  {
  }

  lemma CountedIsPositive(s: State, t: Dialer)
    requires Counting(s) && t in s.dials && !s.dials[t].Finished?
    ensures s.sh.activeDials > 0
  {
    assert t in DialsAt(s.dials, 1);
  }

  lemma PhaseStep(s: State, e: Event)
    requires Inv(s) && Enabled(s, e)
    ensures Phase(Apply(s, e))
  {
    if e.DialTrack? || e.DialRelease? {
      CountedIsPositive(s, e.t);
    }
  }

  lemma InvStep(s: State, e: Event)
    requires Inv(s) && Enabled(s, e)
    ensures Inv(Apply(s, e))
  {
    CountingStep(s, e);
    AccountedStep(s, e);
    OriginStep(s, e);
    HeldIsFreshStep(s, e);
    HeldOnceStep(s, e);
    TrackingStep(s, e);
    PhaseStep(s, e);
  }

  lemma {:induction false} InvAlong(s: State, es: seq<Event>)
    requires Inv(s) && IsRun(s, es)
    ensures Inv(After(s, es))
  {
    if es == [] {
    } else {
      InvAlong(s, es[..|es|-1]);
      InvStep(After(s, es[..|es|-1]), es[|es|-1]);
    }
  }

  /** In every interleaving: the count is exact and no socket is lost. */
  lemma EveryRunKeepsInv(es: seq<Event>)
    requires IsRun(INIT, es)
    ensures Inv(After(INIT, es))
  {
    assert DialsAt(INIT.dials, 1) == {};
    InvAlong(INIT, es);
  }

  /** In every interleaving, before teardown begins: the tracked sockets are those handed out and not yet released. */
  lemma TrackedExactly(es: seq<Event>)
    requires IsRun(INIT, es)
    ensures var s := After(INIT, es);
            && s.sh.connections <= set c | c in s.handles && s.handles[c] != Released
            && (s.body == Idle || s.body == Entered ==>
                  s.sh.connections == set c | c in s.handles && s.handles[c] != Released)
  {
    EveryRunKeepsInv(es);
  }

  lemma {:induction false} PrefixIsRun(s: State, es: seq<Event>, i: nat)
    requires IsRun(s, es) && i <= |es|
    ensures IsRun(s, es[..i])
    ensures i < |es| ==> Enabled(After(s, es[..i]), es[i])
  {
    if i < |es| {
      if i == |es| - 1 {
        assert es[..i] == es[..|es|-1];
      } else {
        assert es[..|es|-1][..i] == es[..i];
        PrefixIsRun(s, es[..|es|-1], i);
      }
    } else {
      assert es[..i] == es;
    }
  }

  /** Only a call of close makes the body start, and it never returns to its start. */
  lemma BodyStarts(s: State, e: Event)
    requires Enabled(s, e)
    ensures Apply(s, e).body == Idle <==> s.body == Idle && !e.CloseCall?
  {
  }

  // ------------------------------------------------------------------ after closing is set

  /** Once dials are refused the work left never grows, whoever runs. */
  lemma WorkNeverGrows(s: State, e: Event)
    requires Inv(s) && Enabled(s, e) && s.sh.closing
    ensures OnlyShrinks(s.sh, Apply(s, e).sh)
    ensures Apply(s, e).handles.Keys == s.handles.Keys
    ensures s.made <= Apply(s, e).made && s.shut <= Apply(s, e).shut
    ensures !e.DialTrack? && !e.DialAdmit?
  {
  }

  /** Over any number of steps as well: this is what a goroutine may rely on while the lock is free. */
  lemma {:induction false} OnlyShrinksAlong(s: State, es: seq<Event>)
    requires Inv(s) && s.sh.closing && IsRun(s, es)
    ensures OnlyShrinks(s.sh, After(s, es).sh) && Inv(After(s, es))
  {
    if es == [] {
    } else {
      OnlyShrinksAlong(s, es[..|es|-1]);
      WorkNeverGrows(After(s, es[..|es|-1]), es[|es|-1]);
      InvStep(After(s, es[..|es|-1]), es[|es|-1]);
    }
  }

  /** After the refusal the set of sockets handed out is fixed and the tracked set only shrinks. */
  lemma {:induction false} RefusalIsFinal(es: seq<Event>, i: nat)
    requires IsRun(INIT, es) && i < |es| && es[i] == Refuse
    ensures IsRun(INIT, es[..i]) && After(INIT, es).sh.closing
    ensures After(INIT, es).handles.Keys == After(INIT, es[..i]).handles.Keys
    ensures After(INIT, es).sh.connections <= After(INIT, es[..i]).sh.connections
  {
    PrefixIsRun(INIT, es, i);
    var front, e := es[..|es|-1], es[|es|-1];
    var s := After(INIT, front);
    assert After(INIT, es) == Apply(s, e);
    if i < |es| - 1 {
      EveryRunKeepsInv(front);
      assert front[..i] == es[..i];
      RefusalIsFinal(front, i);
      WorkNeverGrows(s, e);
    } else {
      assert front == es[..i];
    }
  }

  /** No dial is admitted and no socket is handed out later than the refusal. */
  lemma NoHandoutAfterRefusal(es: seq<Event>, i: nat, j: nat)
    requires IsRun(INIT, es) && i < j < |es| && es[i] == Refuse
    ensures !es[j].DialTrack? && !es[j].DialAdmit?
  {
    PrefixIsRun(INIT, es, j);
    RefusalIsFinal(es[..j], i);
  }

  // ------------------------------------------------------------------ order of the teardown

  /** The steps of the teardown body in the order the program promises. */
  const ORDER: seq<Event> := [Refuse, VpnClose, WaitPass, DeviceClose, WorkersJoin, SignalClosed]

  /** The milestones that occur in a run, in the order they occur. */
  function Milestones(es: seq<Event>): seq<Event> {
    if es == [] then []
    else if es[|es|-1] in ORDER then Milestones(es[..|es|-1]) + [es[|es|-1]]
    else Milestones(es[..|es|-1])
  }

  function Passed(b: BodyPc): (n: nat)
    ensures n <= |ORDER|
  {
    match b
    case Idle => 0
    case Entered => 0
    case Sweep(_) => 1
    case SweepUntrack(_, _) => 1
    case Waiting => 2
    case Drained => 3
    case DeviceDown => 4
    case Joined => 5
    case Over => 6
  }

  lemma MilestoneStep(s: State, e: Event)
    requires Enabled(s, e)
    ensures Passed(Apply(s, e).body) == Passed(s.body) + (if e in ORDER then 1 else 0)
    ensures e in ORDER ==> Passed(s.body) < |ORDER| && ORDER[Passed(s.body)] == e
  {
    if e.VpnClose? || e.WaitPass? { assert e == ORDER[1] || e == ORDER[2]; }
  }

  /** However many callers race on close, each milestone occurs at most once and in the promised order. */
  lemma {:induction false} TeardownOrder(es: seq<Event>)
    requires IsRun(INIT, es)
    ensures Milestones(es) == ORDER[..Passed(After(INIT, es).body)]
  {
    if es == [] {
    } else {
      var front, e := es[..|es|-1], es[|es|-1];
      TeardownOrder(front);
      MilestoneStep(After(INIT, front), e);
    }
  }

  /** What the teardown still has to close. */
  function Unswept(b: BodyPc): set<Conn> {
    match b
    case Sweep(left) => left
    case SweepUntrack(_, left) => left
    case _ => {}
  }

  lemma UnsweptStep(s: State, e: Event)
    requires Enabled(s, e) && s.sh.closing && Phase(s)
    ensures Unswept(Apply(s, e).body) <= Unswept(s.body)
    ensures e.SocketShut? ==> e.c in Unswept(s.body) && e.c !in Unswept(Apply(s, e).body)
  {
  }

  lemma {:induction false} UnsweptAfter(es: seq<Event>, i: nat)
    requires IsRun(INIT, es) && i < |es| && es[i] == Refuse
    ensures IsRun(INIT, es[..i]) && After(INIT, es).sh.closing
    ensures Unswept(After(INIT, es).body) <= After(INIT, es[..i]).sh.connections
    ensures forall j :: i < j < |es| && es[j].SocketShut? ==>
              es[j].c in After(INIT, es[..i]).sh.connections && es[j].c !in Unswept(After(INIT, es).body)
  {
    PrefixIsRun(INIT, es, i);
    RefusalIsFinal(es, i);
    var front, e := es[..|es|-1], es[|es|-1];
    assert After(INIT, es) == Apply(After(INIT, front), e);
    if i < |es| - 1 {
      EveryRunKeepsInv(front);
      assert front[..i] == es[..i];
      UnsweptAfter(front, i);
      UnsweptStep(After(INIT, front), e);
      assert forall j :: 0 <= j < |front| ==> front[j] == es[j];
    } else {
      assert front == es[..i];
    }
  }

  /** The teardown closes only sockets that were tracked when it refused dials, and each at most once. */
  lemma TeardownClosesTracked(es: seq<Event>, i: nat, j: nat)
    requires IsRun(INIT, es) && i < j < |es| && es[i] == Refuse && es[j].SocketShut?
    ensures IsRun(INIT, es[..i]) && es[j].c in After(INIT, es[..i]).sh.connections
    ensures forall k :: i < k < j ==> es[k] != es[j]
  {
    UnsweptAfter(es, i);
    PrefixIsRun(INIT, es, j);
    EveryRunKeepsInv(es[..j]);
    UnsweptAfter(es[..j], i);
    UnsweptStep(After(INIT, es[..j]), es[j]);
    assert forall k :: 0 <= k < j ==> es[..j][k] == es[k];
  }

  /** Before the VPN is closed every socket ever handed out has been closed. */
  lemma SocketsShutBeforeVpn(es: seq<Event>)
    requires IsRun(INIT, es) && Enabled(After(INIT, es), VpnClose)
    ensures After(INIT, es).handles.Keys <= After(INIT, es).shut
    ensures After(INIT, es).sh.connections == {}
  {
    EveryRunKeepsInv(es);
    var s := After(INIT, es);
    forall c | c in s.handles.Keys ensures c in s.shut {
      assert c in s.made;
    }
  }

  /** When the device is closed every socket ever opened has been closed and no dial is in flight. */
  lemma DrainedMeansAllShut(s: State)
    requires Inv(s) && s.body in {Drained, DeviceDown, Joined, Over}
    ensures s.made == s.shut && DialsAt(s.dials, 1) == {}
  {
    forall c | c in s.made ensures c in s.shut {
      if Held(s.dials, c) {
        var t :| t in s.dials && Holds(s.dials[t], c);
        CountedIsPositive(s, t);
      }
    }
  }

  lemma MadeOnlyByDials(s: State, e: Event)
    requires Enabled(s, e)
    ensures Apply(s, e).made != s.made ==> DialsAt(s.dials, 1) != {}
    ensures s.body in {DeviceDown, Joined, Over} ==> Apply(s, e).body in {DeviceDown, Joined, Over}
  {
    if e.DialReturn? {
      assert e.t in DialsAt(s.dials, 1);
    }
  }

  /** From the closing of the device on, no socket is opened and none is left open, in every continuation. */
  lemma {:induction false} DeviceOutlivesSockets(es: seq<Event>, i: nat)
    requires IsRun(INIT, es) && i < |es| && es[i] == DeviceClose
    ensures IsRun(INIT, es[..i])
    ensures After(INIT, es[..i]).made == After(INIT, es[..i]).shut
    ensures After(INIT, es).made == After(INIT, es[..i]).made
    ensures After(INIT, es).body in {DeviceDown, Joined, Over}
  {
    PrefixIsRun(INIT, es, i);
    EveryRunKeepsInv(es[..i]);
    DrainedMeansAllShut(After(INIT, es[..i]));
    var front := es[..|es|-1];
    if i < |es| - 1 {
      assert front[..i] == es[..i];
      DeviceOutlivesSockets(front, i);
      EveryRunKeepsInv(front);
      DrainedMeansAllShut(After(INIT, front));
      MadeOnlyByDials(After(INIT, front), es[|es|-1]);
    } else {
      assert front == es[..i];
    }
  }

  // ------------------------------------------------------------------ bridge workers and the done channel

  /** A worker that reports an error always has a way on: the select never blocks it. */
  lemma WorkerNeverBlocks(s: State, w: nat)
    requires w < |s.workers| && s.workers[w] == Reporting
    ensures exists sent :: Enabled(s, WorkerReport(w, sent))
  {
    assert Enabled(s, WorkerReport(w, !s.slot));
  }

  /** Until the session closes, a reported error is in the channel or with the watcher: the first is never lost. */
  lemma {:induction false} FirstErrorIsDelivered(es: seq<Event>, w: nat, sent: bool)
    requires IsRun(INIT, es) && WorkerReport(w, sent) in es
    ensures After(INIT, es).slot || TakeError in es || After(INIT, es).sh.closing
  {
    var front, e := es[..|es|-1], es[|es|-1];
    EveryRunKeepsInv(front);
    if WorkerReport(w, sent) in front {
      FirstErrorIsDelivered(front, w, sent);
      if After(INIT, front).sh.closing {
        WorkNeverGrows(After(INIT, front), e);
      }
    } else {
      assert e == WorkerReport(w, sent);
    }
  }

  // ------------------------------------------------------------------ the teardown ends

  /** Events that are not the arrival of yet another refused dial or of yet another caller of close. */
  predicate Progress(e: Event) {
    !e.DialRefuse? && !e.CloseCall?
  }

  /** Events the session itself owes: they wait for no new dial, no user closing a socket and no watcher. */
  predicate Owed(e: Event) {
    Progress(e) && !e.DialAdmit? && !e.HandleShut? && !e.TakeError?
  }

  function HandleWeight(pc: HandlePc): nat {
    match pc
    case Open => 2
    case Untracking => 1
    case Released => 0
  }

  function HandlesAt(h: map<Conn, HandlePc>, k: nat): set<Conn> {
    set c | c in h && HandleWeight(h[c]) >= k
  }

  lemma HandlesAtUpdate(h: map<Conn, HandlePc>, c: Conn, pc: HandlePc, k: nat)
    requires k > 0 && c in h
    ensures |HandlesAt(h[c := pc], k)| ==
            |HandlesAt(h, k)| + (if HandleWeight(pc) >= k then 1 else 0) - (if HandleWeight(h[c]) >= k then 1 else 0)
  {
    if HandleWeight(pc) >= k {
      assert HandlesAt(h[c := pc], k) == HandlesAt(h, k) + {c};
    } else {
      assert HandlesAt(h[c := pc], k) == HandlesAt(h, k) - {c};
    }
  }

  function WorkerWeight(pc: WorkerPc): nat {
    match pc
    case Running => 3
    case Reporting => 2
    case Exited => 0
  }

  function BodyWeight(b: BodyPc, parked: bool): nat {
    match b
    case Idle => 0
    case Entered => 0
    case Sweep(left) => 10 + 2 * |left|
    case SweepUntrack(_, left) => 11 + 2 * |left|
    case Waiting => if parked then 8 else 9
    case Drained => 4
    case DeviceDown => 3
    case Joined => 2
    case Over => 0
  }

  function DialWork(d: map<Dialer, DialPc>): nat {
    |DialsAt(d, 1)| + |DialsAt(d, 2)| + |DialsAt(d, 3)| + |DialsAt(d, 4)|
  }

  function HandleWork(h: map<Conn, HandlePc>): nat {
    |HandlesAt(h, 1)| + |HandlesAt(h, 2)|
  }

  lemma DialWorkUpdate(d: map<Dialer, DialPc>, t: Dialer, pc: DialPc)
    ensures DialWork(d[t := pc]) == DialWork(d) + Weight(pc) - (if t in d then Weight(d[t]) else 0)
  {
    DialsAtUpdate(d, t, pc, 1);
    DialsAtUpdate(d, t, pc, 2);
    DialsAtUpdate(d, t, pc, 3);
    DialsAtUpdate(d, t, pc, 4);
  }

  lemma HandleWorkUpdate(h: map<Conn, HandlePc>, c: Conn, pc: HandlePc)
    requires c in h
    ensures HandleWork(h[c := pc]) == HandleWork(h) + HandleWeight(pc) - HandleWeight(h[c])
  {
    HandlesAtUpdate(h, c, pc, 1);
    HandlesAtUpdate(h, c, pc, 2);
  }

  function WorkerWork(workers: seq<WorkerPc>, slot: bool): nat
    requires |workers| == 3
  {
    WorkerWeight(workers[0]) + WorkerWeight(workers[1]) + WorkerWeight(workers[2]) + (if slot then 1 else 0)
  }

  /** How many steps can still happen once dials are refused. */
  function Budget(s: State): nat
    requires |s.workers| == 3
  {
    BodyWeight(s.body, s.sh.parked) + 2 * DialWork(s.dials) + 2 * HandleWork(s.handles) + WorkerWork(s.workers, s.slot)
  }

  lemma DialBudget(s: State, e: Event)
    requires Inv(s) && s.sh.closing && Enabled(s, e)
    requires e.DialRefuse? || e.DialReturn? || e.DialReject? || e.DialDiscard? || e.DialRelease?
    ensures Budget(Apply(s, e)) <= Budget(s) - (if Progress(e) then 1 else 0)
  {
    DialWorkUpdate(s.dials, e.t, Apply(s, e).dials[e.t]);
  }

  lemma HandleBudget(s: State, e: Event)
    requires Inv(s) && s.sh.closing && Enabled(s, e)
    requires e.HandleShut? || e.HandleUntrack?
    ensures Budget(Apply(s, e)) < Budget(s)
  {
    HandleWorkUpdate(s.handles, e.c, Apply(s, e).handles[e.c]);
  }

  lemma WorkerBudget(s: State, e: Event)
    requires |s.workers| == 3 && Enabled(s, e) && (e.WorkerStop? || e.WorkerReport? || e.TakeError?)
    ensures var s' := Apply(s, e);
            && s'.dials == s.dials && s'.handles == s.handles && s'.body == s.body && s'.sh == s.sh
            && |s'.workers| == 3 && WorkerWork(s'.workers, s'.slot) < WorkerWork(s.workers, s.slot)
  {
  }

  predicate OfBody(e: Event) {
    e.Refuse? || e.SocketShut? || e.SocketUntrack? || e.VpnClose? || e.WaitSleep? || e.WaitPass?
    || e.DeviceClose? || e.WorkersJoin? || e.SignalClosed?
  }

  lemma SweepBudget(left: set<Conn>, c: Conn)
    requires c in left
    ensures BodyWeight(SweepUntrack(c, left - {c}), false) < BodyWeight(Sweep(left), false)
  {
    assert |left - {c}| == |left| - 1;
  }

  lemma BodyBudget(s: State, e: Event)
    requires Phase(s) && s.sh.closing && Enabled(s, e) && OfBody(e)
    ensures Apply(s, e).dials == s.dials && Apply(s, e).handles == s.handles
    ensures Apply(s, e).workers == s.workers && Apply(s, e).slot == s.slot
    ensures BodyWeight(Apply(s, e).body, Apply(s, e).sh.parked) < BodyWeight(s.body, s.sh.parked)
  {
    match e
    case SocketShut(c) => SweepBudget(s.body.left, c);
    case VpnClose => assert |s.body.left| == 0;
    case _ =>
  }

  lemma BudgetStep(s: State, e: Event)
    requires Inv(s) && s.sh.closing && Enabled(s, e)
    ensures |Apply(s, e).workers| == 3
    ensures Budget(Apply(s, e)) <= Budget(s) - (if Progress(e) then 1 else 0)
  {
    if e.DialRefuse? || e.DialReturn? || e.DialReject? || e.DialDiscard? || e.DialRelease? {
      DialBudget(s, e);
    } else if e.HandleShut? || e.HandleUntrack? {
      HandleBudget(s, e);
    } else if e.WorkerStop? || e.WorkerReport? || e.TakeError? {
      WorkerBudget(s, e);
    } else if OfBody(e) {
      BodyBudget(s, e);
    } else {
      assert e.CloseCall?;
    }
  }

  /** A sleeping teardown always has a dial left to wait for, and that dial can move: no wakeup is lost. */
  lemma SleeperWillBeWoken(s: State)
    requires Inv(s) && s.sh.parked
    ensures s.sh.connections == {} && DialsAt(s.dials, 1) != {}
    ensures forall t :: t in DialsAt(s.dials, 1) ==> Enabled(s, NextOf(s, t)) && Owed(NextOf(s, t))
  {
  }

  /** The next event of a counted dial once the session closes; a cancelled network dial comes back. */
  function NextOf(s: State, t: Dialer): Event {
    if t !in s.dials then CloseCall else
    match s.dials[t]
    case InFlight => DialReturn(t, None)
    case Returned(_) => DialReject(t)
    case Discarding(_) => DialDiscard(t)
    case Releasing => DialRelease(t)
    case Finished(_) => CloseCall
  }

  /** Until `closed` is closed there is always a step the session itself owes. */
  lemma TeardownNeverStuck(s: State)
    requires Inv(s) && s.body != Idle && s.body != Over
    ensures exists e :: Owed(e) && Enabled(s, e)
  {
    var e := OwedEvent(s);
  }

  lemma OwedEvent(s: State) returns (e: Event)
    requires Inv(s) && s.body != Idle && s.body != Over
    ensures Owed(e) && Enabled(s, e)
  {
    match s.body
    case Entered => e := Refuse;
    case Sweep(left) =>
      if left == {} { e := VpnClose; } else { var c :| c in left; e := SocketShut(c); }
    case SweepUntrack(_, _) => e := SocketUntrack;
    case Waiting =>
      if s.sh.parked {
        SleeperWillBeWoken(s);
        var t :| t in DialsAt(s.dials, 1);
        e := NextOf(s, t);
      } else {
        e := if MustWait(s.sh) then WaitSleep else WaitPass;
      }
    case Drained => e := DeviceClose;
    case DeviceDown =>
      if w :| 0 <= w < 3 && s.workers[w] != Exited {
        e := if s.workers[w] == Running then WorkerStop(w, true) else WorkerReport(w, !s.slot);
      } else {
        e := WorkersJoin;
      }
    case Joined => e := SignalClosed;
  }

  function ProgressCount(es: seq<Event>): nat {
    if es == [] then 0 else ProgressCount(es[..|es|-1]) + (if Progress(es[|es|-1]) then 1 else 0)
  }

  lemma {:induction false} BudgetAlong(s: State, es: seq<Event>)
    requires Inv(s) && s.sh.closing && IsRun(s, es)
    ensures Inv(After(s, es)) && After(s, es).sh.closing
    ensures Budget(After(s, es)) + ProgressCount(es) <= Budget(s)
  {
    if es == [] {
    } else {
      var front := es[..|es|-1];
      BudgetAlong(s, front);
      InvStep(After(s, front), es[|es|-1]);
      WorkNeverGrows(After(s, front), es[|es|-1]);
      BudgetStep(After(s, front), es[|es|-1]);
    }
  }

  /**
   Teardown terminates: from the moment dials are refused every run has a bounded number of steps, and a
   run in which the session owes nothing more has closed `closed`, with every socket closed.
   */
  lemma TeardownTerminates(s: State, es: seq<Event>)
    requires Inv(s) && s.sh.closing && IsRun(s, es)
    ensures ProgressCount(es) <= Budget(s)
    ensures (forall e :: Owed(e) ==> !Enabled(After(s, es), e)) ==>
              After(s, es).body == Over && After(s, es).made == After(s, es).shut
  {
    BudgetAlong(s, es);
    if After(s, es).body != Over {
      TeardownNeverStuck(After(s, es));
    } else {
      DrainedMeansAllShut(After(s, es));
    }
  }
}
