/** Cleaning OpenVPN profiles (`SanitizeOpenVPNConfig` in `internal/tunnel/ovpn_config.go`). */
module Sanitizer {
  import opened Prelude
  import opened Text
  import opened SkipMachine

  predicate IsExecutionDirective(name: string) {
    name in ["auth-user-pass-verify", "client-connect", "client-disconnect", "down", "engine", "ipchange",
             "iproute", "learn-address", "plugin", "providers", "pkcs11-providers", "route-pre-down",
             "route-up", "script-security", "tls-crypt-v2-verify", "tls-verify", "up"]
  }

  predicate IsReplacedDirective(name: string) {
    name in ["auth-user-pass", "block-outside-dns", "http-proxy", "http-proxy-retry", "http-proxy-user-pass",
             "management", "management-client", "management-client-auth", "management-client-group",
             "management-client-pf", "management-client-user", "management-external-cert",
             "management-external-key", "management-hold", "management-log-cache",
             "management-query-passwords", "management-signal", "management-up-down", "socks-proxy",
             "socks-proxy-retry", "register-dns"]
  }

  function DirectiveName(line: string): string {
    if line == "" || HasPrefix(line, "#") || HasPrefix(line, ";") || HasPrefix(line, "<") then ""
    else if Fields(line) == [] then ""
    else TrimPrefix(ToLower(Fields(line)[0]), "--")
  }

  predicate IsAngle(c: char) {
    c == '<' || c == '>'
  }

  /** The credential block that this (trimmed) line opens, or nothing. */
  function OpenedBlock(stripped: string): Option<string> {
    var lower := ToLower(stripped);
    if HasPrefix(lower, "<") && HasSuffix(lower, ">") && !HasPrefix(lower, "</") then
      var words := Fields(TrimLeft(IsAngle, TrimRight(IsAngle, lower)));
      if words != [] && (words[0] == "auth-user-pass" || words[0] == "http-proxy-user-pass") then Some(words[0])
      else None
    else None
  }

  predicate NamesRemoved(raw: string) {
    var name := DirectiveName(TrimSpace(raw));
    IsExecutionDirective(name) || IsReplacedDirective(name)
  }

  function OpensCredentials(raw: string): Option<string> {
    OpenedBlock(TrimSpace(raw))
  }

  function Profile(): Rules {
    Rules(OpensCredentials, NamesRemoved)
  }

  predicate Significant(line: string) {
    var trimmed := TrimSpace(line);
    trimmed != "" && !HasPrefix(trimmed, "#") && !HasPrefix(trimmed, ";")
  }

  predicate AnySignificant(lines: seq<string>) {
    exists i :: 0 <= i < |lines| && Significant(lines[i])
  }

  datatype Error = EmptyConfig | AuthPathRequired | ProxyNotLoopback | ProxyPortRange | BypassNotPublic

  function InputLines(text: string): seq<string> {
    Lines(Normalize(text))
  }

  function CleanLines(text: string): seq<string> {
    Cleaned(Profile(), InputLines(text))
  }

  function Sanitize(text: string): Result<string, Error> {
    if AnySignificant(CleanLines(text)) then Ok(Join(CleanLines(text)) + "\n") else Err(EmptyConfig)
  }

  /** The program's search for a line that is neither empty nor a comment. */
  method HasContent(lines: seq<string>) returns (found: bool)
    ensures found == AnySignificant(lines)
  {
    for i := 0 to |lines|
      invariant forall j :: 0 <= j < i ==> !Significant(lines[j])
    {
      if Significant(lines[i]) {
        return true;
      }
    }
    return false;
  }

  method SanitizeOpenVPNConfig(configText: string) returns (result: Result<string, Error>)
    ensures result == Sanitize(configText)
  {
    var lines := Walk(Profile(), InputLines(configText));
    lines := DropTail(lines);
    var found := HasContent(lines);
    result := if found then Ok(Join(lines) + "\n") else Err(EmptyConfig);
  }

  // ------------------------------------------------------------------ what the output looks like

  lemma ProfileIsBlindToTail()
    ensures BlindToTail(Profile())
  {
    forall raw
      ensures OpensCredentials(TrimRight(IsBlank, raw)) == OpensCredentials(raw)
      ensures NamesRemoved(TrimRight(IsBlank, raw)) == NamesRemoved(raw)
    {
      TrimSpaceOfTrimRight(raw);
    }
  }

  lemma {:induction false} LinesKeepChars(s: string)
    requires '\r' !in s
    ensures forall i :: 0 <= i < |Lines(s)| ==> '\r' !in Lines(s)[i]
  {
    if s == "" {
    } else {
      LinesKeepChars(s[1..]);
      assert s[0] in s;
    }
  }

  ghost predicate AllHarmless(ls: seq<string>) {
    forall l :: l in ls ==> Harmless(Profile(), l) && OneLine(l)
  }

  lemma CleanLinesAreHarmless(text: string)
    ensures AllHarmless(CleanLines(text))
  {
    NoCrAfterNormalize(DropCrBeforeLf(text));
    LinesKeepChars(Normalize(text));
    ProfileIsBlindToTail();
    KeptIsHarmless(Profile(), InputLines(text), NORMAL);
    TrimTailIsPrefix(Kept(Profile(), InputLines(text), NORMAL));
  }

  lemma NoEmptyDirective()
    ensures !IsExecutionDirective("") && !IsReplacedDirective("")
  {
  }

  lemma EmptyLineIsHarmless()
    ensures Harmless(Profile(), "")
  {
    assert ToLower("") == "" && TrimSpace("") == "";
    NoEmptyDirective();
  }

  lemma {:induction false} JoinHasNoCr(lines: seq<string>)
    requires forall i :: 0 <= i < |lines| ==> '\r' !in lines[i]
    ensures '\r' !in Join(lines)
  {
    if |lines| > 1 {
      JoinHasNoCr(lines[1..]);
    }
  }

  /** Joining lines with a final newline and reading them back gives the lines and one empty line. */
  lemma LinesOfText(lines: seq<string>)
    requires lines != [] && forall l :: l in lines ==> OneLine(l)
    ensures InputLines(Join(lines) + "\n") == Lines(Join(lines) + "\n") == lines + [""]
  {
    assert forall i :: 0 <= i < |lines| ==> lines[i] in lines;
    assert Join(lines) + "\n" + "" == Join(lines) + "\n";
    LinesOfJoin(lines, "");
    JoinHasNoCr(lines);
    NormalizeIsIdentity(Join(lines) + "\n");
  }

  lemma InputLinesConcat(a: string, b: string)
    requires a == "" || a[|a|-1] != '\r'
    ensures InputLines(a + "\n" + b) == InputLines(a) + InputLines(b)
  {
    assert a + "\n" + b == a + ("\n" + b);
    NormalizeSplit(a, "\n" + b);
    NormalizeHead("\n" + b);
    assert ("\n" + b)[1..] == b;
    assert Normalize(a) + ("\n" + Normalize(b)) == Normalize(a) + "\n" + Normalize(b);
    LinesConcat(Normalize(a), Normalize(b));
  }

  lemma LinesOfClean(text: string)
    requires Sanitize(text).Ok?
    ensures InputLines(Sanitize(text).value) == Lines(Sanitize(text).value) == CleanLines(text) + [""]
  {
    CleanLinesAreHarmless(text);
    LinesOfText(CleanLines(text));
  }

  /** No line of the output names a removed directive or opens a credential block. */
  lemma OutputIsHarmless(text: string)
    requires Sanitize(text).Ok?
    ensures forall line :: line in Lines(Sanitize(text).value) ==>
              !NamesRemoved(line) && OpensCredentials(line).None?
  {
    LinesOfClean(text);
    CleanLinesAreHarmless(text);
    EmptyLineIsHarmless();
  }

  /** Lines the sanitizer leaves alone as a text. */
  ghost predicate Clean(ls: seq<string>) {
    AnySignificant(ls) && AllHarmless(ls) && EndsInText(ls)
  }

  lemma CleanTextStays(ls: seq<string>)
    requires Clean(ls)
    ensures Sanitize(Join(ls) + "\n") == Ok(Join(ls) + "\n")
  {
    LinesOfText(ls);
    EmptyLineIsHarmless();
    assert forall i :: 0 <= i < |ls| ==> ls[i] in ls;
    CleanStaysClean(Profile(), ls);
  }

  lemma OutputIsClean(text: string)
    requires Sanitize(text).Ok?
    ensures Clean(CleanLines(text))
  {
    CleanLinesAreHarmless(text);
    CleanedEndsInText(Profile(), InputLines(text));
  }

  /** Sanitizing twice is sanitizing once. */
  lemma SanitizeIsIdempotent(text: string)
    requires Sanitize(text).Ok?
    ensures Sanitize(Sanitize(text).value) == Sanitize(text)
  {
    OutputIsClean(text);
    CleanTextStays(CleanLines(text));
  }

  /** The output lines are input lines, right-trimmed and in their order, some left out. */
  lemma OutputIsSubsequence(text: string)
    ensures Subsequence(CleanLines(text), TrimAll(InputLines(text)))
  {
    var kept := Kept(Profile(), InputLines(text), NORMAL);
    KeptIsSubsequence(Profile(), InputLines(text), NORMAL);
    TrimTailIsPrefix(kept);
    SubsequencePrefix(kept, |TrimTail(kept)|, TrimAll(InputLines(text)));
    assert kept[..|TrimTail(kept)|] == TrimTail(kept);
  }

  // ------------------------------------------------------------------ an opener of a credential block

  lemma OpenerOpens()
    ensures OpensCredentials("<auth-user-pass>") == Some("auth-user-pass")
  {
    var w := "auth-user-pass";
    var s := "<" + w + ">";
    assert s == "<auth-user-pass>";
    EndsStay(s);
    assert ToLower(s) == s;
    CredentialTag(w);
  }

  lemma CredentialTag(w: string)
    requires w == "auth-user-pass"
    requires TrimSpace("<" + w + ">") == ToLower("<" + w + ">") == "<" + w + ">"
    ensures OpensCredentials("<" + w + ">") == Some(w)
  {
    AngleBrackets(w);
    FieldsOfWord(w, "");
    assert ("<" + w + ">")[1] == w[0] && "</"[1] == '/';
  }

  lemma AngleBrackets(w: string)
    requires w != "" && !IsAngle(w[0]) && !IsAngle(w[|w|-1])
    ensures TrimLeft(IsAngle, TrimRight(IsAngle, "<" + w + ">")) == w
    ensures HasPrefix("<" + w + ">", "<") && HasSuffix("<" + w + ">", ">")
  {
    var s := "<" + w + ">";
    assert s[..|s|-1] == "<" + w && ("<" + w)[1..] == w && s[|s|-1..] == ">";
    assert TrimRight(IsAngle, "<" + w) == "<" + w;
  }
}
