/** The managed profile: the sanitized text and the lines the manager adds (`RenderOpenVPNConfig`). */
module Renderer {
  import opened Prelude
  import opened Text
  import opened SkipMachine
  import opened Sanitizer

  /** What net.IP prints: never a line break. */
  type Printed = s: string | OneLine(s) witness ""

  /** Outcome of net.ParseIP and of the questions asked about the address. */
  datatype Ip = NotIp | Ip(text: Printed, loopback: bool, globalUnicast: bool, private: bool, v4: bool)

  /** `authPath` in slash form; `goos` already defaulted to the host system. */
  datatype Options = Options(
    authPath: string, useProxy: bool, proxyHost: Ip, proxyPort: int, bypassIPs: seq<Ip>, goos: string)

  function Decimal(n: nat): string {
    if n < 10 then [n as char + '0'] else Decimal(n / 10) + [(n % 10) as char + '0']
  }

  function EscapeQuotes(path: string): string {
    if path == "" then "" else (if path[0] == '"' then "\\\"" else [path[0]]) + EscapeQuotes(path[1..])
  }

  predicate Bypassable(ip: Ip) {
    ip.Ip? && ip.globalUnicast && !ip.private && !ip.loopback
  }

  function RouteLine(ip: Ip): string
    requires ip.Ip?
  {
    if ip.v4 then "route" + (" " + ip.text + " 255.255.255.255 net_gateway")
    else "route-ipv6" + (" " + ip.text + "/128 net_gateway")
  }

  function AuthLine(o: Options): string {
    "auth-user-pass" + (" \"" + EscapeQuotes(o.authPath) + "\"")
  }

  function ProxyLine(o: Options): string
    requires o.proxyHost.Ip? && o.proxyPort >= 0
  {
    "socks-proxy" + (" " + o.proxyHost.text + " " + Decimal(o.proxyPort))
  }

  predicate ProxyOk(o: Options) {
    o.proxyHost.Ip? && o.proxyHost.loopback && 1 <= o.proxyPort <= 65535
  }

  predicate BypassOk(o: Options) {
    forall i :: 0 <= i < |o.bypassIPs| ==> Bypassable(o.bypassIPs[i])
  }

  predicate Valid(o: Options) {
    o.authPath != "" && (o.useProxy ==> ProxyOk(o)) && BypassOk(o)
  }

  function Routes(ips: seq<Ip>): seq<string>
    requires forall i :: 0 <= i < |ips| ==> ips[i].Ip?
  {
    if ips == [] then [] else Routes(ips[..|ips|-1]) + [RouteLine(ips[|ips|-1])]
  }

  const MANAGED_NOTE := "# Managed by Residential IP Manager"
  const PROXY_NOTE := "# Optional local proxy relay"
  const WINDOWS_NOTE := "# Windows DNS leak protection"

  function AuthBlock(o: Options): seq<string> {
    ["", MANAGED_NOTE, AuthLine(o), "auth-nocache"]
  }

  function ProxyBlock(o: Options): seq<string>
    requires o.useProxy ==> ProxyOk(o)
  {
    if o.useProxy then ["", PROXY_NOTE, ProxyLine(o), "socks-proxy-retry"] else []
  }

  function WindowsBlock(o: Options): seq<string> {
    if o.goos == "windows" then ["", WINDOWS_NOTE, "block-outside-dns", "register-dns"] else []
  }

  function ManagedLines(o: Options): seq<string>
    requires Valid(o)
  {
    AuthBlock(o) + ProxyBlock(o) + WindowsBlock(o) + Routes(o.bypassIPs)
  }

  /** The checks in the program's order; the first that fails decides the error. */
  function Managed(o: Options): Result<seq<string>, Error> {
    if o.authPath == "" then Err(AuthPathRequired)
    else if o.useProxy && (o.proxyHost.NotIp? || !o.proxyHost.loopback) then Err(ProxyNotLoopback)
    else if o.useProxy && !(1 <= o.proxyPort <= 65535) then Err(ProxyPortRange)
    else if !BypassOk(o) then Err(BypassNotPublic)
    else Ok(ManagedLines(o))
  }

  function Render(text: string, o: Options): Result<string, Error> {
    var clean := Sanitize(text);
    if clean.Err? then clean
    else match Managed(o)
      case Err(e) => Err(e)
      case Ok(lines) => Ok(clean.value + Join(lines) + "\n")
  }

  method BuildManagedLines(o: Options) returns (result: Result<seq<string>, Error>)
    ensures result == Managed(o)
  {
    if o.authPath == "" {
      return Err(AuthPathRequired);
    }
    var lines := AuthBlock(o);
    if o.useProxy {
      if o.proxyHost.NotIp? || !o.proxyHost.loopback {
        return Err(ProxyNotLoopback);
      }
      if o.proxyPort < 1 || o.proxyPort > 65535 {
        return Err(ProxyPortRange);
      }
      lines := lines + ProxyBlock(o);
    }
    lines := lines + WindowsBlock(o);
    ghost var fixed := lines;
    for i := 0 to |o.bypassIPs|
      invariant forall j :: 0 <= j < i ==> Bypassable(o.bypassIPs[j])
      invariant lines == fixed + Routes(o.bypassIPs[..i])
    {
      if !Bypassable(o.bypassIPs[i]) {
        return Err(BypassNotPublic);
      }
      assert o.bypassIPs[..i+1][..i] == o.bypassIPs[..i];
      lines := lines + [RouteLine(o.bypassIPs[i])];
    }
    assert o.bypassIPs[..|o.bypassIPs|] == o.bypassIPs;
    assert lines == ManagedLines(o);
    return Ok(lines);
  }

  method RenderOpenVPNConfig(configText: string, o: Options) returns (result: Result<string, Error>)
    ensures result == Render(configText, o)
  {
    var cleaned := SanitizeOpenVPNConfig(configText);
    if cleaned.Err? {
      return cleaned;
    }
    var lines := BuildManagedLines(o);
    if lines.Err? {
      return Err(lines.error);
    }
    return Ok(cleaned.value + Join(lines.value) + "\n");
  }

  // ------------------------------------------------------------------ sanitizing a rendered profile

  /** The managed lines before the auth line. */
  function Head(): seq<string> {
    ["", MANAGED_NOTE]
  }

  /** The managed lines behind the auth line. */
  function Tail(o: Options): seq<string>
    requires Valid(o)
  {
    ["auth-nocache"] + ProxyBlock(o) + WindowsBlock(o) + Routes(o.bypassIPs)
  }

  lemma ManagedInParts(o: Options)
    requires Valid(o)
    ensures ManagedLines(o) == Head() + ([AuthLine(o)] + Tail(o))
  {
  }

  function ProxyRest(o: Options): seq<string> {
    if o.useProxy then ["", PROXY_NOTE] else []
  }

  function WindowsRest(o: Options): seq<string> {
    if o.goos == "windows" then ["", WINDOWS_NOTE] else []
  }

  /** The lines of the tail that are no replaced directives. */
  function TailRest(o: Options): seq<string>
    requires Valid(o)
  {
    ["auth-nocache"] + ProxyRest(o) + WindowsRest(o) + Routes(o.bypassIPs)
  }

  /** The managed lines that are no replaced directives. */
  function SurvivingLines(o: Options): seq<string>
    requires Valid(o)
  {
    Head() + TailRest(o)
  }

  predicate PlainWord(w: string) {
    && w != "" && ToLower(w) == w
    && w[0] != '#' && w[0] != ';' && w[0] != '<' && w[0] != '-'
    && forall i :: 0 <= i < |w| ==> !IsSpace(w[i])
  }

  lemma NameOfLine(w: string, tail: string)
    requires PlainWord(w) && (tail == "" || IsSpace(tail[0]))
    ensures DirectiveName(TrimSpace(w + tail)) == w
    ensures OpensCredentials(w + tail).None?
  {
    var line := w + tail;
    FirstSurvives(IsSpace, line);
    assert TrimSpace(line) == TrimRight(IsSpace, line);
    assert TrimSpace(line)[0] == w[0];
    FieldsTrimSpace(line);
    LengthOfWord(w, tail);
    assert line[..|w|] == w;
    assert Fields(line)[0] == w;
    assert ToLower(TrimSpace(line))[0] == Lower(w[0]) == ToLower(w)[0];
    assert "--"[0] != w[0];
  }

  // What the sanitizer's tables say of the words the manager writes.

  predicate ReplacedWord(w: string) {
    PlainWord(w) && IsReplacedDirective(w)
  }

  lemma AuthIsReplaced()
    ensures ReplacedWord("auth-user-pass")
  {
  }

  lemma ProxyIsReplaced()
    ensures ReplacedWord("socks-proxy")
  {
  }

  lemma RetryIsReplaced()
    ensures ReplacedWord("socks-proxy-retry")
  {
  }

  lemma BlockDnsIsReplaced()
    ensures ReplacedWord("block-outside-dns")
  {
  }

  lemma RegisterDnsIsReplaced()
    ensures ReplacedWord("register-dns")
  {
  }

  lemma NoExecutionWords()
    ensures !IsExecutionDirective("auth-nocache")
    ensures !IsExecutionDirective("route") && !IsExecutionDirective("route-ipv6")
  {
  }

  lemma NoReplacedWords()
    ensures !IsReplacedDirective("auth-nocache")
    ensures !IsReplacedDirective("route") && !IsReplacedDirective("route-ipv6")
  {
  }

  /** A line `word tail` whose last character is neither blank nor a backslash. */
  predicate Closed(line: string) {
    line != "" && !IsBlank(line[|line|-1]) && line[|line|-1] != '\\'
  }

  lemma ClosedLine(line: string)
    requires Closed(line)
    ensures TrimRight(IsBlank, line) == line && !Continues(line)
  {
    assert "\\"[0] == '\\';
  }

  lemma WordStays(w: string, tail: string)
    requires PlainWord(w) && (tail == "" || IsSpace(tail[0])) && Closed(w + tail)
    requires !IsExecutionDirective(w) && !IsReplacedDirective(w)
    ensures Harmless(Profile(), w + tail) && TrimSpace(w + tail) != ""
  {
    NameOfLine(w, tail);
    ClosedLine(w + tail);
    FirstSurvives(IsSpace, w + tail);
  }

  lemma WordGoes(w: string, tail: string)
    requires ReplacedWord(w) && (tail == "" || IsSpace(tail[0])) && Closed(w + tail)
    ensures Goes(Profile(), w + tail)
  {
    NameOfLine(w, tail);
    ClosedLine(w + tail);
  }

  lemma NoteStays(note: string)
    requires Closed(note) && note[0] == '#'
    ensures Harmless(Profile(), note) && TrimSpace(note) != ""
  {
    ClosedLine(note);
    FirstSurvives(IsSpace, note);
    assert TrimSpace(note) == TrimRight(IsSpace, note);
    assert HasPrefix(TrimSpace(note), "#");
    assert ToLower(TrimSpace(note))[0] == '#';
    assert "<"[0] == '<';
    NoEmptyDirective();
  }

  lemma {:induction false} DecimalIsDigits(n: nat)
    ensures Decimal(n) != "" && forall i :: 0 <= i < |Decimal(n)| ==> '0' <= Decimal(n)[i] <= '9'
  {
    if n >= 10 {
      DecimalIsDigits(n / 10);
    }
  }

  lemma NocacheStays()
    ensures Harmless(Profile(), "auth-nocache") && TrimSpace("auth-nocache") != ""
  {
    NoExecutionWords();
    NoReplacedWords();
    assert PlainWord("auth-nocache") && "auth-nocache" + "" == "auth-nocache";
    WordStays("auth-nocache", "");
  }

  lemma ProxyLineGoes(o: Options)
    requires ProxyOk(o)
    ensures Goes(Profile(), ProxyLine(o))
  {
    ProxyIsReplaced();
    DecimalIsDigits(o.proxyPort);
    WordGoes("socks-proxy", " " + o.proxyHost.text + " " + Decimal(o.proxyPort));
  }

  lemma WholeWordGoes(w: string)
    requires ReplacedWord(w) && Closed(w)
    ensures Goes(Profile(), w) && !Harmless(Profile(), w)
  {
    assert w + "" == w;
    WordGoes(w, "");
  }

  lemma RetryGoes()
    ensures Goes(Profile(), "socks-proxy-retry") && !Harmless(Profile(), "socks-proxy-retry")
  {
    RetryIsReplaced();
    WholeWordGoes("socks-proxy-retry");
  }

  lemma DnsLinesGo()
    ensures Goes(Profile(), "block-outside-dns")
    ensures Goes(Profile(), "register-dns") && !Harmless(Profile(), "register-dns")
  {
    BlockDnsIsReplaced();
    WholeWordGoes("block-outside-dns");
    RegisterDnsIsReplaced();
    WholeWordGoes("register-dns");
  }

  lemma ProxyBlockKept(o: Options)
    requires o.useProxy && ProxyOk(o)
    ensures Kept(Profile(), ProxyBlock(o), NORMAL) == ["", PROXY_NOTE]
    ensures FinalMode(Profile(), ProxyBlock(o), NORMAL) == NORMAL
  {
    EmptyLineIsHarmless();
    NoteStays(PROXY_NOTE);
    ProxyLineGoes(o);
    RetryGoes();
    BlockKept(Profile(), PROXY_NOTE, ProxyLine(o), "socks-proxy-retry");
  }

  lemma WindowsBlockKept(o: Options)
    requires o.goos == "windows"
    ensures Kept(Profile(), WindowsBlock(o), NORMAL) == ["", WINDOWS_NOTE]
    ensures FinalMode(Profile(), WindowsBlock(o), NORMAL) == NORMAL
  {
    EmptyLineIsHarmless();
    NoteStays(WINDOWS_NOTE);
    DnsLinesGo();
    BlockKept(Profile(), WINDOWS_NOTE, "block-outside-dns", "register-dns");
  }

  lemma RouteStays(ip: Ip)
    requires ip.Ip?
    ensures Harmless(Profile(), RouteLine(ip)) && TrimSpace(RouteLine(ip)) != ""
  {
    NoExecutionWords();
    NoReplacedWords();
    assert PlainWord("route") && PlainWord("route-ipv6");
    if ip.v4 {
      WordStays("route", " " + ip.text + " 255.255.255.255 net_gateway");
    } else {
      WordStays("route-ipv6", " " + ip.text + "/128 net_gateway");
    }
  }

  lemma {:induction false} RoutesStay(ips: seq<Ip>)
    requires forall i :: 0 <= i < |ips| ==> ips[i].Ip?
    ensures forall l :: l in Routes(ips) ==> Harmless(Profile(), l) && TrimSpace(l) != ""
  {
    if ips == [] {
    } else {
      RoutesStay(ips[..|ips|-1]);
      RouteStays(ips[|ips|-1]);
    }
  }

  lemma OptionalBlocksKept(o: Options)
    requires Valid(o)
    ensures Kept(Profile(), ProxyBlock(o), NORMAL) == ProxyRest(o)
    ensures Kept(Profile(), WindowsBlock(o), NORMAL) == WindowsRest(o)
    ensures FinalMode(Profile(), ProxyBlock(o), NORMAL) == FinalMode(Profile(), WindowsBlock(o), NORMAL) == NORMAL
  {
    if o.useProxy {
      ProxyBlockKept(o);
    }
    if o.goos == "windows" {
      WindowsBlockKept(o);
    }
  }

  lemma TailKept(o: Options)
    requires Valid(o)
    ensures Kept(Profile(), Tail(o), NORMAL) == TailRest(o) && FinalMode(Profile(), Tail(o), NORMAL) == NORMAL
  {
    var routes := Routes(o.bypassIPs);
    NocacheStays();
    KeptLeavesHarmless(Profile(), ["auth-nocache"]);
    OptionalBlocksKept(o);
    RoutesStay(o.bypassIPs);
    assert forall i :: 0 <= i < |routes| ==> routes[i] in routes;
    KeptLeavesHarmless(Profile(), routes);
    KeptOfConcat(Profile(), ["auth-nocache"], ProxyBlock(o), NORMAL);
    KeptOfConcat(Profile(), ["auth-nocache"] + ProxyBlock(o), WindowsBlock(o), NORMAL);
    KeptOfConcat(Profile(), ["auth-nocache"] + ProxyBlock(o) + WindowsBlock(o), routes, NORMAL);
  }

  // ------------------------------------------------------------------ one line each, none closing a block

  /** A line without breaks whose first character is no angle bracket and no white space. */
  predicate Upright(l: string) {
    OneLine(l) && (l == "" || (!IsSpace(l[0]) && l[0] != '<'))
  }

  ghost predicate AllUpright(lines: seq<string>) {
    forall l :: l in lines ==> Upright(l)
  }

  lemma UprightCloses(l: string, block: string)
    requires Upright(l)
    ensures !Closes(l, block)
  {
    var closer := "</" + block + ">";
    assert closer[0] == '<';
    if l != "" {
      FirstSurvives(IsSpace, l);
      assert TrimSpace(l) == TrimRight(IsSpace, l);
      assert ToLower(TrimSpace(l))[0] == Lower(l[0]) != '<';
    } else {
      assert ToLower(TrimSpace("")) == "";
    }
  }

  lemma AllUprightCloseNothing(lines: seq<string>)
    requires AllUpright(lines)
    ensures ClosesNothing(lines)
  {
    forall l, block | l in lines ensures !Closes(l, block) {
      UprightCloses(l, block);
    }
  }

  lemma ConcatUpright(a: seq<string>, b: seq<string>)
    requires AllUpright(a) && AllUpright(b)
    ensures AllUpright(a + b)
  {
  }

  lemma HeadUpright()
    ensures AllUpright(Head())
  {
    assert Upright(MANAGED_NOTE);
  }

  lemma NocacheUpright()
    ensures Upright("auth-nocache")
  {
  }

  lemma ProxyUpright(o: Options)
    requires o.useProxy ==> ProxyOk(o)
    ensures AllUpright(ProxyBlock(o)) && AllUpright(ProxyRest(o))
  {
    if o.useProxy {
      DecimalIsDigits(o.proxyPort);
      assert Upright(ProxyLine(o)) && Upright(PROXY_NOTE) && Upright("socks-proxy-retry");
    }
  }

  lemma WindowsUpright(o: Options)
    ensures AllUpright(WindowsBlock(o)) && AllUpright(WindowsRest(o))
  {
    assert Upright(WINDOWS_NOTE) && Upright("block-outside-dns") && Upright("register-dns");
  }

  lemma RouteUpright(ip: Ip)
    requires ip.Ip?
    ensures Upright(RouteLine(ip))
  {
    var tail := if ip.v4 then " 255.255.255.255 net_gateway" else "/128 net_gateway";
    assert OneLine(tail) && OneLine("route") && OneLine("route-ipv6") && "route"[0] == 'r' && "route-ipv6"[0] == 'r';
    assert OneLine(" " + ip.text + tail);
  }

  lemma {:induction false} RoutesUpright(ips: seq<Ip>)
    requires forall i :: 0 <= i < |ips| ==> ips[i].Ip?
    ensures AllUpright(Routes(ips))
  {
    if ips == [] {
    } else {
      RoutesUpright(ips[..|ips|-1]);
      RouteUpright(ips[|ips|-1]);
    }
  }

  lemma FourUpright(a: seq<string>, b: seq<string>, c: seq<string>, d: seq<string>)
    requires AllUpright(a) && AllUpright(b) && AllUpright(c) && AllUpright(d)
    ensures AllUpright(a + b + c + d)
  {
    ConcatUpright(a, b);
    ConcatUpright(a + b, c);
    ConcatUpright(a + b + c, d);
  }

  lemma TailUpright(o: Options)
    requires Valid(o)
    ensures AllUpright(Tail(o)) && AllUpright(TailRest(o))
  {
    NocacheUpright();
    ProxyUpright(o);
    WindowsUpright(o);
    RoutesUpright(o.bypassIPs);
    FourUpright(["auth-nocache"], ProxyBlock(o), WindowsBlock(o), Routes(o.bypassIPs));
    FourUpright(["auth-nocache"], ProxyRest(o), WindowsRest(o), Routes(o.bypassIPs));
  }

  lemma ConcatEndsInText(a: seq<string>, b: seq<string>, c: seq<string>, d: seq<string>)
    requires EndsInText(a) && (b == [] || EndsInText(b)) && (c == [] || EndsInText(c)) && (d == [] || EndsInText(d))
    ensures EndsInText(a + b + c + d)
  {
  }

  lemma HeadIsClean()
    ensures EndsInText(Head()) && forall i :: 0 <= i < |Head()| ==> Harmless(Profile(), Head()[i])
  {
    NoteStays(MANAGED_NOTE);
    EmptyLineIsHarmless();
  }

  lemma OptionalRestEndsInText(o: Options)
    ensures ProxyRest(o) == [] || EndsInText(ProxyRest(o))
    ensures WindowsRest(o) == [] || EndsInText(WindowsRest(o))
  {
    NoteStays(PROXY_NOTE);
    NoteStays(WINDOWS_NOTE);
  }

  lemma RoutesEndInText(ips: seq<Ip>)
    requires forall i :: 0 <= i < |ips| ==> ips[i].Ip?
    ensures Routes(ips) == [] || EndsInText(Routes(ips))
  {
    if ips != [] {
      RouteStays(ips[|ips|-1]);
    }
  }

  lemma TailRestEndsInText(o: Options)
    requires Valid(o)
    ensures EndsInText(TailRest(o))
  {
    NocacheStays();
    OptionalRestEndsInText(o);
    RoutesEndInText(o.bypassIPs);
    ConcatEndsInText(["auth-nocache"], ProxyRest(o), WindowsRest(o), Routes(o.bypassIPs));
  }
}
