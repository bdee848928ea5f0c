/**
 The tunnel as its users see it: which node's session is live, and what happened to it. A trace is legal when a
 connect is refused only beside a live session, and dials and dies only in the states that allow it.
 */
module Tunnel {
  import opened Prelude

  datatype Happening =
    | Refused                          // Connect found a session
    | DialFailed
    | Up(id: string)
    | Down                             // Disconnect
    | Died                             // the watcher retired the session

  predicate Legal(live: Option<string>, h: Happening) {
    match h
    case Refused => live.Some?
    case DialFailed => live.None?
    case Up(_) => live.None?
    case Down => true
    case Died => live.Some?
  }

  function Effect(live: Option<string>, h: Happening): Option<string> {
    match h
    case Refused => live
    case DialFailed => live
    case Up(id) => Some(id)
    case Down => None
    case Died => None
  }

  /** The node that is live after a trace that began with none. */
  function LiveAfter(trace: seq<Happening>): Option<string> {
    if trace == [] then None else Effect(LiveAfter(trace[..|trace|-1]), trace[|trace|-1])
  }

  predicate LegalTrace(trace: seq<Happening>) {
    trace == [] ||
    (LegalTrace(trace[..|trace|-1]) && Legal(LiveAfter(trace[..|trace|-1]), trace[|trace|-1]))
  }

  lemma TraceSnoc(trace: seq<Happening>, h: Happening)
    ensures LiveAfter(trace + [h]) == Effect(LiveAfter(trace), h)
    ensures LegalTrace(trace + [h]) <==> LegalTrace(trace) && Legal(LiveAfter(trace), h)
  {
    assert (trace + [h])[..|trace|] == trace;
  }
}
