/** Which endpoint a profile names (`parseRemote` in `internal/source/vpngate.go`), and what sanitizing does to it. */
module Remote {
  import opened Prelude
  import opened Text
  import opened SkipMachine
  import opened Sanitizer

  predicate Contains(s: string, part: string) {
    part <= s || (s != "" && Contains(s[1..], part))
  }

  function NormalizeProtocol(value: string): string {
    var v := ToLower(TrimSpace(value));
    if Contains(v, "tcp") then "tcp" else if Contains(v, "udp") then "udp" else "unknown"
  }

  predicate IsQuote(c: char) {
    c == '"' || c == '\''
  }

  function Unquote(s: string): string {
    TrimLeft(IsQuote, TrimRight(IsQuote, s))
  }

  predicate Digits(s: string) {
    s != "" && forall i :: 0 <= i < |s| ==> '0' <= s[i] <= '9'
  }

  function DigitsValue(s: string): nat
    requires forall i :: 0 <= i < |s| ==> '0' <= s[i] <= '9'
  {
    if s == "" then 0 else 10 * DigitsValue(s[..|s|-1]) + (s[|s|-1] - '0') as int
  }

  function Max(a: int, b: int): int {
    if a < b then b else a
  }

  function Min(a: int, b: int): int {
    if a < b then a else b
  }

  /** The value strconv.Atoi returns when its error is ignored: 0 for no number, the nearest int64 out of range. */
  function Atoi(s: string): int {
    var negative := s != "" && s[0] == '-';
    var digits := if s != "" && (s[0] == '-' || s[0] == '+') then s[1..] else s;
    if !Digits(digits) then 0
    else if negative then Max(0 - DigitsValue(digits), -0x8000_0000_0000_0000)
    else Min(DigitsValue(digits), 0x7fff_ffff_ffff_ffff)
  }

  datatype Endpoint = Endpoint(host: string, port: int, protocol: string)

  /** What one line contributes. */
  datatype Effect =
    | Nothing
    | Proto(protocol: string)
    | Names(host: string, port: int, override: Option<string>)

  function EffectOf(raw: string): Effect {
    var line := TrimSpace(raw);
    if line == "" || HasPrefix(line, "#") || HasPrefix(line, ";") then Nothing
    else if Fields(line) == [] then Nothing
    else EffectOfFields(Fields(line))
  }

  function EffectOfFields(fields: seq<string>): Effect
    requires fields != []
  {
    var name := TrimPrefix(ToLower(fields[0]), "--");
    if name == "proto" && |fields| >= 2 then Proto(NormalizeProtocol(fields[1]))
    else if name == "remote" && |fields| >= 3 then
      Names(Unquote(fields[1]), Atoi(fields[2]), if |fields| >= 4 then Some(NormalizeProtocol(fields[3])) else None)
    else Nothing
  }

  function Parse(lines: seq<string>, protocol: string): Endpoint {
    if lines == [] then Endpoint("", 0, protocol)
    else match EffectOf(lines[0])
      case Nothing => Parse(lines[1..], protocol)
      case Proto(p) => Parse(lines[1..], p)
      case Names(host, port, o) => Endpoint(host, port, if o.Some? then o.value else protocol)
  }

  function EndpointOf(text: string): Endpoint {
    Parse(Lines(text), "unknown")
  }

  method ParseRemote(configText: string) returns (host: string, port: int, protocol: string)
    ensures Endpoint(host, port, protocol) == EndpointOf(configText)
  {
    var lines := Lines(configText);
    protocol := "unknown";
    for i := 0 to |lines|
      invariant EndpointOf(configText) == Parse(lines[i..], protocol)
    {
      assert lines[i..][1..] == lines[i+1..];
      var line := TrimSpace(lines[i]);
      if line == "" || HasPrefix(line, "#") || HasPrefix(line, ";") {
        continue;
      }
      var fields := Fields(line);
      if |fields| == 0 {
        continue;
      }
      var name := TrimPrefix(ToLower(fields[0]), "--");
      if name == "proto" && |fields| >= 2 {
        protocol := NormalizeProtocol(fields[1]);
      }
      if name == "remote" && |fields| >= 3 {
        if |fields| >= 4 {
          protocol := NormalizeProtocol(fields[3]);
        }
        return Unquote(fields[1]), Atoi(fields[2]), protocol;
      }
    }
    return "", 0, protocol;
  }

  // ------------------------------------------------------------------ removed lines name no endpoint

  lemma ProtoIsKept()
    ensures !IsExecutionDirective("proto") && !IsReplacedDirective("proto")
  {
  }

  lemma RemoteIsKept()
    ensures !IsExecutionDirective("remote") && !IsReplacedDirective("remote")
  {
  }

  lemma RemovedHasNoEffect(raw: string)
    requires NamesRemoved(raw)
    ensures EffectOf(raw).Nothing?
  {
    NoEmptyDirective();
    ProtoIsKept();
    RemoteIsKept();
    var line := TrimSpace(raw);
    assert DirectiveName(line) != "";
    assert DirectiveName(line) != "proto" && DirectiveName(line) != "remote";
  }

  lemma FirstOfFields(s: string)
    requires s != "" && !IsSpace(s[0])
    ensures Fields(s) != [] && Fields(s)[0] != "" && Fields(s)[0][0] == s[0]
  {
  }

  lemma OpenerHasNoEffect(raw: string)
    requires OpensCredentials(raw).Some?
    ensures EffectOf(raw).Nothing?
  {
    var line := TrimSpace(raw);
    assert ToLower(line)[0] == '<' by {
      assert HasPrefix(ToLower(line), "<");
    }
    assert Lower(line[0]) == '<' && line[0] == '<';
    FirstOfFields(line);
    var word := ToLower(Fields(line)[0]);
    assert word[0] == '<' && "--"[0] == '-' && "proto"[0] == 'p' && "remote"[0] == 'r';
    assert TrimPrefix(word, "--") == word;
  }

  // ------------------------------------------------------------------ the kept lines name the same endpoint

  /** Lines that the rules remove by themselves name no endpoint. */
  ghost predicate SparesEndpoints(r: Rules) {
    forall raw :: r.opens(raw).Some? || r.names(raw) ==> EffectOf(raw).Nothing?
  }

  /** Up to the line that decides the endpoint, no skipped block or continuation hides a remote or proto line. */
  ghost predicate HidesNothing(r: Rules, lines: seq<string>, m: Mode) {
    lines == [] ||
    ((Skipping(m) ==> EffectOf(lines[0]).Nothing?) &&
     (EffectOf(lines[0]).Names? || HidesNothing(r, lines[1..], Step(r, m, lines[0]))))
  }

  lemma ProfileSparesEndpoints()
    ensures SparesEndpoints(Profile())
  {
    forall raw | OpensCredentials(raw).Some? || NamesRemoved(raw) ensures EffectOf(raw).Nothing? {
      if OpensCredentials(raw).Some? {
        OpenerHasNoEffect(raw);
      } else {
        RemovedHasNoEffect(raw);
      }
    }
  }

  lemma EffectOfTrimmed(a: string, b: string)
    requires TrimSpace(a) == TrimSpace(b)
    ensures EffectOf(a) == EffectOf(b)
  {
  }

  lemma ParseHead(line: string, rest: seq<string>, protocol: string)
    ensures Parse([line] + rest, protocol) ==
            match EffectOf(line)
            case Nothing => Parse(rest, protocol)
            case Proto(p) => Parse(rest, p)
            case Names(host, port, o) => Endpoint(host, port, if o.Some? then o.value else protocol)
  {
    assert ([line] + rest)[1..] == rest;
  }

  lemma {:induction false} ParseOfKept(r: Rules, lines: seq<string>, m: Mode, protocol: string)
    requires SparesEndpoints(r) && HidesNothing(r, lines, m)
    ensures Parse(Kept(r, lines, m), protocol) == Parse(lines, protocol)
  {
    if lines == [] {
    } else {
      var raw, rest := lines[0], lines[1..];
      var m', e := Step(r, m, raw), EffectOf(raw);
      assert lines == [raw] + rest;
      ParseHead(raw, rest, protocol);
      if Keeps(r, m, raw) {
        var kept := TrimRight(IsBlank, raw);
        TrimSpaceOfTrimRight(raw);
        EffectOfTrimmed(kept, raw);
        ParseHead(kept, Kept(r, rest, m'), protocol);
      } else {
        assert Kept(r, lines, m) == Kept(r, rest, m');
        assert e.Nothing?;
      }
      if !e.Names? {
        ParseOfKept(r, rest, m', if e.Proto? then e.protocol else protocol);
      }
    }
  }

  lemma {:induction false} ParseDropsLast(lines: seq<string>, last: string, protocol: string)
    requires EffectOf(last).Nothing?
    ensures Parse(lines + [last], protocol) == Parse(lines, protocol)
  {
    if lines == [] {
      assert lines + [last] == [last] + [];
      ParseHead(last, [], protocol);
    } else {
      var e := EffectOf(lines[0]);
      assert lines + [last] == [lines[0]] + (lines[1..] + [last]);
      ParseHead(lines[0], lines[1..] + [last], protocol);
      if !e.Names? {
        ParseDropsLast(lines[1..], last, if e.Proto? then e.protocol else protocol);
      }
    }
  }

  lemma {:induction false} ParseOfTrimTail(lines: seq<string>, protocol: string)
    ensures Parse(TrimTail(lines), protocol) == Parse(lines, protocol)
  {
    if lines != [] && TrimSpace(lines[|lines|-1]) == "" {
      var front, last := lines[..|lines|-1], lines[|lines|-1];
      assert lines == front + [last];
      ParseDropsLast(front, last, protocol);
      ParseOfTrimTail(front, protocol);
    }
  }

  // ------------------------------------------------------------------ line ends

  /** Every carriage return belongs to a CR LF pair. */
  ghost predicate NoLoneCr(s: string) {
    forall i :: 0 <= i < |s| && s[i] == '\r' ==> i + 1 < |s| && s[i+1] == '\n'
  }

  ghost predicate SameTrimmed(a: seq<string>, b: seq<string>) {
    |a| == |b| && forall i :: 0 <= i < |a| ==> a[i] == b[i] || a[i] == b[i] + "\r"
  }

  lemma {:induction false} NormalizeOnlyDropsCr(s: string)
    requires NoLoneCr(s)
    ensures SameTrimmed(Lines(s), Lines(Normalize(s)))
    decreases |s|
  {
    if s == "" {
    } else {
      if s[0] == '\r' {
        var rest := s[2..];
        assert s == "\r" + "\n" + rest && s[1] == '\n';
        NormalizeOnlyDropsCr(rest);
        LinesOfLine("\r", rest);
        assert Normalize(s) == "\n" + Normalize(rest);
        assert Normalize(s)[1..] == Normalize(rest);
      } else {
        var rest := s[1..];
        assert s == [s[0]] + rest;
        assert forall i :: 0 <= i < |rest| ==> rest[i] == s[i+1];
        NormalizeOnlyDropsCr(rest);
        assert Normalize(s) == [s[0]] + Normalize(rest);
        assert Normalize(s)[1..] == Normalize(rest);
      }
    }
  }

  lemma {:induction false} ParseOfSameTrimmed(a: seq<string>, b: seq<string>, protocol: string)
    requires SameTrimmed(a, b)
    ensures Parse(a, protocol) == Parse(b, protocol)
  {
    if a == [] {
    } else {
      if a[0] == b[0] + "\r" {
        assert a[0][..|a[0]|-1] == b[0];
        EffectOfTrimmed(a[0], b[0]);
      }
      var e := EffectOf(a[0]);
      assert a == [a[0]] + a[1..] && b == [b[0]] + b[1..];
      ParseHead(a[0], a[1..], protocol);
      ParseHead(b[0], b[1..], protocol);
      if !e.Names? {
        ParseOfSameTrimmed(a[1..], b[1..], if e.Proto? then e.protocol else protocol);
      }
    }
  }

  /** Sanitizing does not change which host, port and protocol a profile names. */
  lemma SanitizePreservesEndpoint(text: string)
    requires Sanitize(text).Ok? && NoLoneCr(text) && HidesNothing(Profile(), InputLines(text), NORMAL)
    ensures EndpointOf(Sanitize(text).value) == EndpointOf(text)
  {
    var input := InputLines(text);
    NormalizeOnlyDropsCr(text);
    ParseOfSameTrimmed(Lines(text), input, "unknown");
    ProfileSparesEndpoints();
    ParseOfKept(Profile(), input, NORMAL, "unknown");
    ParseOfTrimTail(Kept(Profile(), input, NORMAL), "unknown");
    LinesOfClean(text);
    ParseDropsLast(CleanLines(text), "", "unknown");
  }

  // ------------------------------------------------------------------ the endpoint after sanitizing

  function Effects(lines: seq<string>): (es: seq<Effect>)
    ensures |es| == |lines| && forall i :: 0 <= i < |lines| ==> es[i] == EffectOf(lines[i])
  {
    seq(|lines|, i requires 0 <= i < |lines| => EffectOf(lines[i]))
  }

  /** The effects of the lines outside every skipped block and continuation, when the walk starts in mode `m`. */
  function UnskippedEffects(r: Rules, lines: seq<string>, m: Mode): (es: seq<Effect>)
    ensures |es| == |lines|
  {
    if lines == [] then []
    else [if Skipping(m) then Nothing else EffectOf(lines[0])] + UnskippedEffects(r, lines[1..], Step(r, m, lines[0]))
  }

  lemma {:induction false} UnskippedAt(r: Rules, lines: seq<string>, m: Mode, i: nat)
    requires i < |lines|
    ensures UnskippedEffects(r, lines, m)[i] ==
            if Skipping(FinalMode(r, lines[..i], m)) then Nothing else EffectOf(lines[i])
  {
    if i == 0 {
      assert lines[..0] == [];
    } else {
      UnskippedAt(r, lines[1..], Step(r, m, lines[0]), i - 1);
      assert lines[..i][1..] == lines[1..][..i-1];
    }
  }

  /** parseRemote on effects. */
  function Reading(es: seq<Effect>, protocol: string): Endpoint {
    if es == [] then Endpoint("", 0, protocol)
    else match es[0]
      case Nothing => Reading(es[1..], protocol)
      case Proto(p) => Reading(es[1..], p)
      case Names(host, port, o) => Endpoint(host, port, if o.Some? then o.value else protocol)
  }

  lemma {:induction false} ParseReads(lines: seq<string>, protocol: string)
    ensures Parse(lines, protocol) == Reading(Effects(lines), protocol)
  {
    if lines == [] {
    } else {
      var e := EffectOf(lines[0]);
      assert Effects(lines)[1..] == Effects(lines[1..]);
      ParseReads(lines[1..], if e.Proto? then e.protocol else protocol);
    }
  }

  /** Of the kept lines the parser sees what it would see of the unskipped ones. */
  lemma {:induction false} KeptReads(r: Rules, lines: seq<string>, m: Mode, protocol: string)
    requires SparesEndpoints(r)
    ensures Parse(Kept(r, lines, m), protocol) == Reading(UnskippedEffects(r, lines, m), protocol)
  {
    if lines == [] {
    } else {
      var raw, rest, m' := lines[0], lines[1..], Step(r, m, lines[0]);
      var e := if Skipping(m) then Nothing else EffectOf(raw);
      assert UnskippedEffects(r, lines, m)[1..] == UnskippedEffects(r, rest, m');
      KeptHead(r, lines, m, protocol);
      KeptReads(r, rest, m', if e.Proto? then e.protocol else protocol);
    }
  }

  lemma KeptHead(r: Rules, lines: seq<string>, m: Mode, protocol: string)
    requires SparesEndpoints(r) && lines != []
    ensures Parse(Kept(r, lines, m), protocol) ==
            var kept := Kept(r, lines[1..], Step(r, m, lines[0]));
            match if Skipping(m) then Nothing else EffectOf(lines[0])
            case Nothing => Parse(kept, protocol)
            case Proto(p) => Parse(kept, p)
            case Names(host, port, o) => Endpoint(host, port, if o.Some? then o.value else protocol)
  {
    var raw, rest, m' := lines[0], lines[1..], Step(r, m, lines[0]);
    if Keeps(r, m, raw) {
      TrimSpaceOfTrimRight(raw);
      EffectOfTrimmed(TrimRight(IsBlank, raw), raw);
      ParseHead(TrimRight(IsBlank, raw), Kept(r, rest, m'), protocol);
    } else {
      assert Kept(r, lines, m) == Kept(r, rest, m');
    }
  }

  /** Host, port and protocol of a sanitized profile, read off the lines of the original. */
  lemma SanitizedEndpoint(text: string)
    requires Sanitize(text).Ok?
    ensures EndpointOf(Sanitize(text).value) == Reading(UnskippedEffects(Profile(), InputLines(text), NORMAL), "unknown")
  {
    ProfileSparesEndpoints();
    KeptReads(Profile(), InputLines(text), NORMAL, "unknown");
    ParseOfTrimTail(Kept(Profile(), InputLines(text), NORMAL), "unknown");
    LinesOfClean(text);
    ParseDropsLast(CleanLines(text), "", "unknown");
  }

  // ------------------------------------------------------------------ when sanitizing keeps the endpoint

  /** The first effect that names an endpoint, or the number of effects. */
  function Deciding(es: seq<Effect>): (k: nat)
    ensures k <= |es| && forall i :: 0 <= i < k ==> !es[i].Names?
    ensures k < |es| ==> es[k].Names?
  {
    if es == [] || es[0].Names? then 0 else 1 + Deciding(es[1..])
  }

  /** What the last proto line before `k` sets; `initial` without one. */
  function InForce(es: seq<Effect>, k: nat, initial: string): string
    requires k <= |es|
  {
    if k == 0 then initial else if es[k-1].Proto? then es[k-1].protocol else InForce(es, k - 1, initial)
  }

  function HostAt(es: seq<Effect>, k: nat): string {
    if k < |es| && es[k].Names? then es[k].host else ""
  }

  function PortAt(es: seq<Effect>, k: nat): int {
    if k < |es| && es[k].Names? then es[k].port else 0
  }

  /** The protocol the deciding line carries itself, or the one in force there. */
  function ProtocolAt(es: seq<Effect>, k: nat, initial: string): string
    requires k <= |es|
  {
    if k < |es| && es[k].Names? && es[k].override.Some? then es[k].override.value else InForce(es, k, initial)
  }

  lemma {:induction false} InForceAfterHead(es: seq<Effect>, k: nat, initial: string)
    requires 0 < k <= |es|
    ensures InForce(es, k, initial) == InForce(es[1..], k - 1, if es[0].Proto? then es[0].protocol else initial)
  {
    if k == 1 {
    } else {
      InForceAfterHead(es, k - 1, initial);
    }
  }

  /** The parser's answer is what stands at the deciding line. */
  lemma {:induction false} ReadingAtDeciding(es: seq<Effect>, initial: string)
    ensures var k := Deciding(es);
            Reading(es, initial) == Endpoint(HostAt(es, k), PortAt(es, k), ProtocolAt(es, k, initial))
  {
    if es == [] || es[0].Names? {
    } else {
      ReadingAtDeciding(es[1..], if es[0].Proto? then es[0].protocol else initial);
      InForceAfterHead(es, Deciding(es), initial);
    }
  }

  /** The deciding lines of two readings agree on host and port, and on the protocol they carry or find in force. */
  predicate DecidingLinesAgree(a: seq<Effect>, b: seq<Effect>) {
    var i, j := Deciding(a), Deciding(b);
    HostAt(a, i) == HostAt(b, j) && PortAt(a, i) == PortAt(b, j) && ProtocolAt(a, i, "unknown") == ProtocolAt(b, j, "unknown")
  }

  /**
   For every profile: sanitizing keeps host, port and protocol if and only if the deciding line of the text as the
   program splits it and the deciding one among the unskipped lines of the normalized text agree.
   */
  lemma EndpointSurvivesIff(text: string)
    requires Sanitize(text).Ok?
    ensures EndpointOf(Sanitize(text).value) == EndpointOf(text) <==>
              DecidingLinesAgree(Effects(Lines(text)), UnskippedEffects(Profile(), InputLines(text), NORMAL))
  {
    SanitizedEndpoint(text);
    ParseReads(Lines(text), "unknown");
    ReadingAtDeciding(Effects(Lines(text)), "unknown");
    ReadingAtDeciding(UnskippedEffects(Profile(), InputLines(text), NORMAL), "unknown");
  }

  ghost predicate NamesNone(lines: seq<string>) {
    forall l :: l in lines ==> !EffectOf(l).Names?
  }

  lemma ParseOfNone(lines: seq<string>, protocol: string)
    requires NamesNone(lines)
    ensures Parse(lines, protocol).host == "" && Parse(lines, protocol).port == 0
  {
    ParseReads(lines, protocol);
    ReadingAtDeciding(Effects(lines), protocol);
    assert forall i :: 0 <= i < |lines| ==> lines[i] in lines;
  }

  lemma {:induction false} UnskippedNamesNone(r: Rules, lines: seq<string>, m: Mode)
    requires NamesNone(lines)
    ensures Deciding(UnskippedEffects(r, lines, m)) == |lines|
  {
    if lines == [] {
    } else {
      UnskippedNamesNone(r, lines[1..], Step(r, m, lines[0]));
      assert UnskippedEffects(r, lines, m)[1..] == UnskippedEffects(r, lines[1..], Step(r, m, lines[0]));
    }
  }

  /** Normalized lines that name no endpoint leave none behind, whatever the program read before. */
  lemma SanitizedNamesNone(text: string)
    requires Sanitize(text).Ok? && NamesNone(InputLines(text))
    ensures EndpointOf(Sanitize(text).value).host == "" && EndpointOf(Sanitize(text).value).port == 0
  {
    SanitizedEndpoint(text);
    UnskippedNamesNone(Profile(), InputLines(text), NORMAL);
    ReadingAtDeciding(UnskippedEffects(Profile(), InputLines(text), NORMAL), "unknown");
  }
}
