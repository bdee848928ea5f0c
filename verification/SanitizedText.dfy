/**
 What the sanitizer does to a profile, said of its text: which lines and blocks never reach the output and which
 always do. Nothing here is stated through the tables and recognizers that the sanitizer consults.
 */
module SanitizedText {
  import opened Prelude
  import opened Text
  import opened SkipMachine
  import opened Sanitizer

  // ------------------------------------------------------------------ trimming

  lemma {:induction false} TrimRightPast(drop: char -> bool, a: string, b: string)
    requires a != "" && !drop(a[|a|-1])
    ensures TrimRight(drop, a + b) == a + TrimRight(drop, b)
  {
    if b == "" {
      assert a + b == a;
    } else {
      assert (a + b)[..|a + b|-1] == a + b[..|b|-1];
      if drop(b[|b|-1]) {
        TrimRightPast(drop, a, b[..|b|-1]);
      }
    }
  }

  /** `l` ends in blanks from `k` on, and not before. */
  predicate BlankFrom(l: string, k: nat) {
    && k <= |l| && (forall i :: k <= i < |l| ==> l[i] == ' ' || l[i] == '\t')
    && (k > 0 ==> l[k-1] != ' ' && l[k-1] != '\t')
  }

  lemma {:induction false} TrimRightCuts(l: string, k: nat)
    requires BlankFrom(l, k)
    ensures TrimRight(IsBlank, l) == l[..k]
  {
    if k == |l| {
      assert l[..k] == l;
    } else {
      TrimRightCuts(l[..|l|-1], k);
      assert l[..|l|-1][..k] == l[..k];
    }
  }

  lemma {:induction false} BlanksBegin(l: string) returns (k: nat)
    ensures BlankFrom(l, k)
  {
    if l == "" || !IsBlank(l[|l|-1]) {
      k := |l|;
    } else {
      k := BlanksBegin(l[..|l|-1]);
    }
  }

  /** Output lines are input lines less the spaces and tabs at their end. */
  lemma OutputIsTrimmed(text: string, line: string)
    requires line in CleanLines(text)
    ensures line == "" || (line[|line|-1] != ' ' && line[|line|-1] != '\t')
    ensures exists raw, k :: raw in InputLines(text) && BlankFrom(raw, k) && line == raw[..k]
  {
    CleanLinesAreHarmless(text);
    TrimTailIsPrefix(Kept(Profile(), InputLines(text), NORMAL));
    var raw := KeptComesFrom(Profile(), InputLines(text), NORMAL, line);
    var k := BlanksBegin(raw);
    TrimRightCuts(raw, k);
  }

  lemma {:induction false} KeptComesFrom(r: Rules, lines: seq<string>, m: Mode, line: string) returns (raw: string)
    requires line in Kept(r, lines, m)
    ensures raw in lines && line == TrimRight(IsBlank, raw)
  {
    if Keeps(r, m, lines[0]) && line == TrimRight(IsBlank, lines[0]) {
      raw := lines[0];
    } else {
      raw := KeptComesFrom(r, lines[1..], Step(r, m, lines[0]), line);
    }
  }

  /** A line that ends in a backslash, blanks aside. */
  ghost predicate EndsInBackslash(l: string) {
    exists k :: 0 < k && BlankFrom(l, k) && l[k-1] == '\\'
  }

  lemma ContinuesIff(l: string)
    ensures Continues(l) <==> EndsInBackslash(l)
  {
    var k := BlanksBegin(l);
    TrimRightCuts(l, k);
    assert "\\"[0] == '\\' && |"\\"| == 1;
    if k > 0 {
      assert l[..k][k-1..] == [l[k-1]];
    }
    forall j | 0 < j && BlankFrom(l, j) ensures j == k {
    }
  }

  // ------------------------------------------------------------------ tags

  predicate CredentialName(name: string) {
    name == "auth-user-pass" || name == "http-proxy-user-pass"
  }

  /** The line is `<name ..>`: any case, blanks around and after the opening bracket, anything after the name. */
  predicate TagParts(line: string, name: string, pad: string, word: string, rest: string) {
    && TrimSpace(line) == "<" + (pad + word) + (rest + ">")
    && (forall i :: 0 <= i < |pad| ==> IsSpace(pad[i]))
    && (forall i :: 0 <= i < |word| ==> !IsSpace(word[i]))
    && ToLower(word) == name && (rest == "" || IsSpace(rest[0]))
  }

  ghost predicate Tag(line: string, name: string) {
    exists pad, word, rest :: TagParts(line, name, pad, word, rest)
  }

  /** A name a tag can have: no bracket at its ends and no slash in front. */
  predicate TagName(name: string) {
    && name != "" && !IsAngle(name[0]) && !IsAngle(name[|name|-1]) && name[0] != '/'
    && forall i :: 0 <= i < |name| ==> !IsSpace(name[i])
  }

  lemma LowerSpace(c: char)
    ensures IsSpace(Lower(c)) <==> IsSpace(c)
  {
  }

  lemma LowerOfConcat(a: string, b: string)
    ensures ToLower(a + b) == ToLower(a) + ToLower(b)
  {
  }

  lemma LowerOfTag(pad: string, word: string, rest: string)
    ensures ToLower("<" + (pad + word) + (rest + ">")) == "<" + (ToLower(pad) + ToLower(word)) + (ToLower(rest) + ">")
  {
    LowerOfConcat(pad, word);
    LowerOfConcat(rest, ">");
    LowerOfConcat("<", pad + word);
    LowerOfConcat("<" + (pad + word), rest + ">");
    assert ToLower("<") == "<" && ToLower(">") == ">";
  }

  lemma {:induction false} FieldsAfterPad(pad: string, s: string)
    requires forall i :: 0 <= i < |pad| ==> IsSpace(pad[i])
    ensures Fields(pad + s) == Fields(s)
  {
    if pad == "" {
      assert pad + s == s;
    } else {
      assert (pad + s)[1..] == pad[1..] + s && IsSpace((pad + s)[0]);
      FieldsAfterPad(pad[1..], s);
    }
  }

  lemma FirstField(name: string, rest: string)
    requires name != "" && (forall i :: 0 <= i < |name| ==> !IsSpace(name[i])) && (rest == "" || IsSpace(rest[0]))
    ensures Fields(name + rest) != [] && Fields(name + rest)[0] == name
  {
    LengthOfWord(name, rest);
    assert (name + rest)[..|name|] == name;
  }

  lemma ClosingBracket(front: string, rest: string)
    requires front != "" && !IsAngle(front[|front|-1])
    ensures TrimRight(IsAngle, front + (rest + ">")) == front + TrimRight(IsAngle, rest)
  {
    TrimRightPast(IsAngle, front, rest + ">");
    assert (rest + ">")[..|rest + ">"|-1] == rest;
  }

  lemma OpeningBracket(inside: string)
    requires inside != "" && !IsAngle(inside[0])
    ensures TrimLeft(IsAngle, "<" + inside) == inside
  {
    assert ("<" + inside)[1..] == inside;
  }

  /** The text between the brackets of a tag, brackets at its right end gone. */
  lemma TagInside(core: string, rest: string)
    requires core != "" && !IsAngle(core[0]) && !IsAngle(core[|core|-1])
    ensures TrimLeft(IsAngle, TrimRight(IsAngle, "<" + core + (rest + ">"))) == core + TrimRight(IsAngle, rest)
  {
    ClosingBracket("<" + core, rest);
    var tail := TrimRight(IsAngle, rest);
    assert "<" + core + tail == "<" + (core + tail);
    OpeningBracket(core + tail);
  }

  lemma RestStillApart(rest: string)
    requires rest == "" || IsSpace(rest[0])
    ensures TrimRight(IsAngle, rest) == "" || IsSpace(TrimRight(IsAngle, rest)[0])
  {
    assert !IsSpace('<') && !IsSpace('>');
    if rest != "" {
      FirstSurvives(IsAngle, rest);
    }
  }

  lemma LooksLikeTag(pad: string, name: string, rest: string)
    requires TagName(name) && (forall i :: 0 <= i < |pad| ==> IsSpace(pad[i]))
    ensures var s := "<" + (pad + name) + (rest + ">"); HasPrefix(s, "<") && HasSuffix(s, ">") && !HasPrefix(s, "</")
  {
    var s := "<" + (pad + name) + (rest + ">");
    assert s[|s|-1..] == ">" && s[0] == '<' && s[1] == (pad + name)[0] && "</"[1] == '/' && !IsSpace('/');
  }

  lemma TagWords(pad: string, name: string, rest: string)
    requires TagName(name) && (forall i :: 0 <= i < |pad| ==> IsSpace(pad[i])) && (rest == "" || IsSpace(rest[0]))
    ensures Fields((pad + name) + TrimRight(IsAngle, rest)) != []
    ensures Fields((pad + name) + TrimRight(IsAngle, rest))[0] == name
  {
    RestStillApart(rest);
    var tail := TrimRight(IsAngle, rest);
    assert (pad + name) + tail == pad + (name + tail);
    FieldsAfterPad(pad, name + tail);
    FirstField(name, tail);
  }

  lemma CoreEnds(pad: string, name: string)
    requires TagName(name) && forall i :: 0 <= i < |pad| ==> IsSpace(pad[i])
    ensures var core := pad + name; core != "" && !IsAngle(core[0]) && !IsAngle(core[|core|-1])
  {
    assert !IsSpace('<') && !IsSpace('>');
  }

  lemma OpenedByWords(stripped: string, inside: string, name: string)
    requires var lower := ToLower(stripped);
             && HasPrefix(lower, "<") && HasSuffix(lower, ">") && !HasPrefix(lower, "</")
             && TrimLeft(IsAngle, TrimRight(IsAngle, lower)) == inside
    requires Fields(inside) != [] && Fields(inside)[0] == name
    ensures OpenedBlock(stripped) == if CredentialName(name) then Some(name) else None
  {
  }

  lemma OpenedByTag(pad: string, name: string, rest: string, stripped: string)
    requires TagName(name) && (forall i :: 0 <= i < |pad| ==> IsSpace(pad[i])) && (rest == "" || IsSpace(rest[0]))
    requires ToLower(stripped) == "<" + (pad + name) + (rest + ">")
    ensures OpenedBlock(stripped) == if CredentialName(name) then Some(name) else None
  {
    LooksLikeTag(pad, name, rest);
    CoreEnds(pad, name);
    TagInside(pad + name, rest);
    TagWords(pad, name, rest);
    OpenedByWords(stripped, (pad + name) + TrimRight(IsAngle, rest), name);
  }

  /** A tag opens a block to be skipped exactly when its name is one of the two credential blocks. */
  lemma TagOpensIff(line: string, name: string)
    requires Tag(line, name) && TagName(name)
    ensures OpensCredentials(line) == if CredentialName(name) then Some(name) else None
  {
    var pad, word, rest :| TagParts(line, name, pad, word, rest);
    LowerOfTag(pad, word, rest);
    forall i | 0 <= i < |pad| ensures IsSpace(ToLower(pad)[i]) {
      LowerSpace(pad[i]);
    }
    if rest != "" {
      LowerSpace(rest[0]);
    }
    OpenedByTag(ToLower(pad), name, ToLower(rest), TrimSpace(line));
  }

  lemma CredentialNamesAreTagNames(name: string)
    requires CredentialName(name)
    ensures TagName(name)
  {
  }

  /** What is not in angle brackets opens nothing. */
  lemma NoTagOpensNothing(line: string)
    requires TrimSpace(line) == "" || TrimSpace(line)[0] != '<' || TrimSpace(line)[|TrimSpace(line)|-1] != '>'
    ensures OpensCredentials(line).None?
  {
    var s := TrimSpace(line);
    var lower := ToLower(s);
    assert "<"[0] == '<' && ">"[0] == '>';
    if s != "" {
      assert lower[0] == Lower(s[0]) && lower[|lower|-1] == Lower(s[|s|-1]);
      assert HasSuffix(lower, ">") ==> lower[|lower|-1..][0] == '>';
    }
  }

  // ------------------------------------------------------------------ credential blocks

  predicate Closer(line: string, name: string) {
    ToLower(TrimSpace(line)) == "</" + name + ">"
  }

  lemma {:induction false} InsideSkipped(inside: seq<string>, name: string, m: Mode)
    requires m.block == Some(name) && forall i :: 0 <= i < |inside| ==> !Closer(inside[i], name)
    ensures Kept(Profile(), inside, m) == [] && FinalMode(Profile(), inside, m) == m
  {
    if inside == [] {
    } else {
      assert !Closer(inside[0], name);
      InsideSkipped(inside[1..], name, m);
    }
  }

  lemma OneStep(r: Rules, line: string, m: Mode)
    ensures Kept(r, [line], m) == (if Keeps(r, m, line) then [TrimRight(IsBlank, line)] else [])
    ensures FinalMode(r, [line], m) == Step(r, m, line)
  {
    assert [line][1..] == [];
  }

  /** A credential block reached outside a skipped block: nothing of it is kept, however long it stays open. */
  lemma OpenCredentials(opener: string, inside: seq<string>, name: string, m: Mode)
    requires CredentialName(name) && Tag(opener, name) && m.block.None?
    requires forall i :: 0 <= i < |inside| ==> !Closer(inside[i], name)
    ensures Kept(Profile(), [opener] + inside, m) == [] && FinalMode(Profile(), [opener] + inside, m) == m.(block := Some(name))
  {
    CredentialNamesAreTagNames(name);
    TagOpensIff(opener, name);
    OneStep(Profile(), opener, m);
    KeptOfConcat(Profile(), [opener], inside, m);
    InsideSkipped(inside, name, m.(block := Some(name)));
  }

  lemma ClosedCredentials(opener: string, inside: seq<string>, closer: string, name: string, m: Mode)
    requires CredentialName(name) && Tag(opener, name) && m.block.None? && Closer(closer, name)
    requires forall i :: 0 <= i < |inside| ==> !Closer(inside[i], name)
    ensures Kept(Profile(), ([opener] + inside) + [closer], m) == []
    ensures FinalMode(Profile(), ([opener] + inside) + [closer], m) == m
  {
    OpenCredentials(opener, inside, name, m);
    KeptOfConcat(Profile(), [opener] + inside, [closer], m);
    OneStep(Profile(), closer, m.(block := Some(name)));
  }

  lemma Spliced(r: Rules, before: seq<string>, middle: seq<string>, after: seq<string>, m: Mode, n: Mode)
    requires FinalMode(r, before, NORMAL) == m && FinalMode(r, middle, m) == n
    ensures Kept(r, before + (middle + after), NORMAL) == Kept(r, before, NORMAL) + (Kept(r, middle, m) + Kept(r, after, n))
  {
    KeptOfConcat(r, before, middle + after, NORMAL);
    KeptOfConcat(r, middle, after, m);
  }

  lemma Skipped(r: Rules, before: seq<string>, middle: seq<string>, after: seq<string>, m: Mode, n: Mode)
    requires FinalMode(r, before, NORMAL) == m && FinalMode(r, middle, m) == n && Kept(r, middle, m) == []
    ensures Kept(r, before + (middle + after), NORMAL) == Kept(r, before, NORMAL) + Kept(r, after, n)
  {
    Spliced(r, before, middle, after, m, n);
  }

  /** And once it is closed the sanitizer goes on as if it had not been there. */
  lemma CredentialsVanish(
    before: seq<string>, opener: string, inside: seq<string>, closer: string, after: seq<string>, name: string)
    requires CredentialName(name) && Tag(opener, name) && FinalMode(Profile(), before, NORMAL).block.None?
    requires (forall i :: 0 <= i < |inside| ==> !Closer(inside[i], name)) && Closer(closer, name)
    ensures Kept(Profile(), before + ((([opener] + inside) + [closer]) + after), NORMAL)
            == Kept(Profile(), before, NORMAL) + Kept(Profile(), after, FinalMode(Profile(), before, NORMAL))
  {
    var m := FinalMode(Profile(), before, NORMAL);
    ClosedCredentials(opener, inside, closer, name, m);
    Skipped(Profile(), before, ([opener] + inside) + [closer], after, m, m);
  }

  /** So a profile with a credential block sanitizes to what it would without it. */
  lemma BlockMakesNoDifference(
    text: string, without: string, before: seq<string>, opener: string, inside: seq<string>, closer: string,
    after: seq<string>, name: string)
    requires InputLines(text) == before + ((([opener] + inside) + [closer]) + after)
    requires InputLines(without) == before + after
    requires CredentialName(name) && Tag(opener, name) && FinalMode(Profile(), before, NORMAL).block.None?
    requires (forall i :: 0 <= i < |inside| ==> !Closer(inside[i], name)) && Closer(closer, name)
    ensures Sanitize(text) == Sanitize(without)
  {
    ClosedCredentials(opener, inside, closer, name, FinalMode(Profile(), before, NORMAL));
    SplicedOut(Profile(), before, ([opener] + inside) + [closer], after);
  }

  /** No output line opens either credential block. */
  lemma NoCredentialsInOutput(text: string, line: string, name: string)
    requires Sanitize(text).Ok? && line in Lines(Sanitize(text).value) && CredentialName(name)
    ensures !Tag(line, name)
  {
    OutputIsHarmless(text);
    CredentialNamesAreTagNames(name);
    if Tag(line, name) {
      TagOpensIff(line, name);
      assert false;
    }
  }

  // ------------------------------------------------------------------ directives

  /** The first word of the line is the directive, in any case and with or without two dashes. */
  predicate DirectiveParts(line: string, name: string, word: string, rest: string) {
    && TrimSpace(line) == word + rest && word != "" && (forall i :: 0 <= i < |word| ==> !IsSpace(word[i]))
    && (rest == "" || IsSpace(rest[0])) && (ToLower(word) == name || ToLower(word) == "--" + name)
  }

  ghost predicate Directive(line: string, name: string) {
    exists word, rest :: DirectiveParts(line, name, word, rest)
  }

  predicate PlainName(name: string) {
    name != "" && name[0] != '#' && name[0] != ';' && name[0] != '<' && name[0] != '-'
  }

  lemma NameOfWord(word: string, name: string)
    requires PlainName(name) && word != "" && (ToLower(word) == name || ToLower(word) == "--" + name)
    ensures TrimPrefix(ToLower(word), "--") == name && word[0] != '#' && word[0] != ';' && word[0] != '<'
  {
    assert ToLower(word)[0] == Lower(word[0]) && ("--" + name)[0] == '-' && "--"[0] == '-';
    assert ("--" + name)[2..] == name && "--" <= "--" + name;
  }

  lemma DirectiveIsNamed(line: string, name: string)
    requires Directive(line, name) && PlainName(name)
    ensures DirectiveName(TrimSpace(line)) == name
  {
    var word, rest :| DirectiveParts(line, name, word, rest);
    NameOfWord(word, name);
    FirstField(word, rest);
    assert TrimSpace(line)[0] == word[0] && "#"[0] == '#' && ";"[0] == ';' && "<"[0] == '<';
  }

  // The directives that run commands, load code, or are the manager's own to write.

  predicate RunsCommands(name: string) {
    || name == "up" || name == "down" || name == "route-up" || name == "route-pre-down" || name == "ipchange"
    || name == "iproute" || name == "learn-address" || name == "client-connect" || name == "client-disconnect"
    || name == "auth-user-pass-verify" || name == "tls-verify" || name == "tls-crypt-v2-verify"
    || name == "script-security"
  }

  predicate LoadsCode(name: string) {
    name == "plugin" || name == "engine" || name == "providers" || name == "pkcs11-providers"
  }

  predicate SetsCredentialsOrRelay(name: string) {
    || name == "auth-user-pass" || name == "http-proxy" || name == "http-proxy-retry" || name == "http-proxy-user-pass"
    || name == "socks-proxy" || name == "socks-proxy-retry" || name == "block-outside-dns" || name == "register-dns"
  }

  predicate OpensManagement(name: string) {
    || name == "management" || name == "management-client" || name == "management-client-auth"
    || name == "management-client-group" || name == "management-client-pf" || name == "management-client-user"
    || name == "management-external-cert" || name == "management-external-key" || name == "management-hold"
    || name == "management-log-cache" || name == "management-query-passwords" || name == "management-signal"
    || name == "management-up-down"
  }

  predicate Forbidden(name: string) {
    RunsCommands(name) || LoadsCode(name) || SetsCredentialsOrRelay(name) || OpensManagement(name)
  }

  lemma ExecutionIff(name: string)
    ensures IsExecutionDirective(name) <==> RunsCommands(name) || LoadsCode(name)
  {
  }

  lemma ReplacedIff(name: string)
    ensures IsReplacedDirective(name) <==> SetsCredentialsOrRelay(name) || OpensManagement(name)
  {
  }

  lemma RunsCommandsIsPlain(name: string)
    requires RunsCommands(name)
    ensures PlainName(name)
  {
  }

  lemma OpensManagementIsPlain(name: string)
    requires OpensManagement(name)
    ensures PlainName(name)
  {
  }

  lemma ForbiddenIsPlain(name: string)
    requires Forbidden(name)
    ensures PlainName(name)
  {
    if RunsCommands(name) {
      RunsCommandsIsPlain(name);
    } else if OpensManagement(name) {
      OpensManagementIsPlain(name);
    } else if LoadsCode(name) {
    } else {
      assert SetsCredentialsOrRelay(name);
    }
  }

  /** A directive is removed by itself exactly when it is one of these. */
  lemma RemovedIff(line: string, name: string)
    requires Directive(line, name) && PlainName(name)
    ensures NamesRemoved(line) <==> Forbidden(name)
  {
    DirectiveIsNamed(line, name);
    ExecutionIff(name);
    ReplacedIff(name);
  }

  /** No output line is such a directive. */
  lemma NoForbiddenInOutput(text: string, line: string, name: string)
    requires Sanitize(text).Ok? && line in Lines(Sanitize(text).value) && Forbidden(name)
    ensures !Directive(line, name)
  {
    OutputIsHarmless(text);
    ForbiddenIsPlain(name);
    if Directive(line, name) {
      RemovedIff(line, name);
      assert false;
    }
  }

  lemma DirectiveIsNoTag(line: string, name: string)
    requires Directive(line, name) && PlainName(name)
    ensures OpensCredentials(line).None?
  {
    var word, rest :| DirectiveParts(line, name, word, rest);
    NameOfWord(word, name);
    assert TrimSpace(line)[0] == word[0];
    NoTagOpensNothing(line);
  }

  /** Every other directive, reached outside both skip modes, is kept where it stands. */
  lemma OtherDirectiveStays(before: seq<string>, line: string, after: seq<string>, name: string)
    requires FinalMode(Profile(), before, NORMAL) == NORMAL && Directive(line, name) && PlainName(name) && !Forbidden(name)
    ensures Kept(Profile(), before + ([line] + after), NORMAL)
            == Kept(Profile(), before, NORMAL) + ([TrimRight(IsBlank, line)] + Kept(Profile(), after, NORMAL))
  {
    DirectiveIsNoTag(line, name);
    RemovedIff(line, name);
    OneStep(Profile(), line, NORMAL);
    Spliced(Profile(), before, [line], after, NORMAL, NORMAL);
  }

  lemma LoneDirective(line: string, name: string)
    requires Directive(line, name) && Forbidden(name) && !EndsInBackslash(line)
    ensures Kept(Profile(), [line], NORMAL) == [] && FinalMode(Profile(), [line], NORMAL) == NORMAL
  {
    ForbiddenIsPlain(name);
    DirectiveIsNoTag(line, name);
    RemovedIff(line, name);
    ContinuesIff(line);
    OneStep(Profile(), line, NORMAL);
  }

  lemma SplicedOut(r: Rules, before: seq<string>, middle: seq<string>, after: seq<string>)
    requires var m := FinalMode(r, before, NORMAL); Kept(r, middle, m) == [] && FinalMode(r, middle, m) == m
    ensures Kept(r, before + (middle + after), NORMAL) == Kept(r, before + after, NORMAL)
  {
    var m := FinalMode(r, before, NORMAL);
    Spliced(r, before, middle, after, m, m);
    KeptOfConcat(r, before, after, NORMAL);
  }

  /** A profile with a forbidden directive that is not continued sanitizes to what it would without it. */
  lemma DirectiveMakesNoDifference(
    text: string, without: string, before: seq<string>, line: string, after: seq<string>, name: string)
    requires InputLines(text) == before + ([line] + after) && InputLines(without) == before + after
    requires FinalMode(Profile(), before, NORMAL) == NORMAL && Directive(line, name) && Forbidden(name)
    requires !EndsInBackslash(line)
    ensures Sanitize(text) == Sanitize(without)
  {
    LoneDirective(line, name);
    SplicedOut(Profile(), before, [line], after);
  }

  lemma ContinuedPair(line: string, next: string, name: string)
    requires Directive(line, name) && Forbidden(name) && EndsInBackslash(line)
    requires TrimSpace(next) == "" || TrimSpace(next)[0] != '<'
    ensures Kept(Profile(), [line] + [next], NORMAL) == []
    ensures FinalMode(Profile(), [line] + [next], NORMAL) == Mode(None, EndsInBackslash(next))
  {
    ForbiddenIsPlain(name);
    DirectiveIsNoTag(line, name);
    RemovedIff(line, name);
    NoTagOpensNothing(next);
    ContinuesIff(line);
    ContinuesIff(next);
    OneStep(Profile(), line, NORMAL);
    OneStep(Profile(), next, Mode(None, true));
    KeptOfConcat(Profile(), [line], [next], NORMAL);
  }

  /**
   A forbidden directive goes, and with it the next line when a backslash ends it; whether the line after that goes
   as well is then up to the next one.
   */
  lemma ContinuationVanishes(before: seq<string>, line: string, next: string, after: seq<string>, name: string)
    requires FinalMode(Profile(), before, NORMAL) == NORMAL && Directive(line, name) && Forbidden(name)
    requires EndsInBackslash(line) && (TrimSpace(next) == "" || TrimSpace(next)[0] != '<')
    ensures Kept(Profile(), before + (([line] + [next]) + after), NORMAL)
            == Kept(Profile(), before, NORMAL) + Kept(Profile(), after, Mode(None, EndsInBackslash(next)))
  {
    ContinuedPair(line, next, name);
    Skipped(Profile(), before, [line] + [next], after, NORMAL, Mode(None, EndsInBackslash(next)));
  }

  /** The sanitizer fails exactly when every line it keeps is blank or a comment. */
  lemma FailsIff(text: string)
    ensures Sanitize(text).Err? <==>
              forall i :: 0 <= i < |CleanLines(text)| ==>
                var s := TrimSpace(CleanLines(text)[i]); s == "" || s[0] == '#' || s[0] == ';'
  {
    assert "#"[0] == '#' && ";"[0] == ';' && |"#"| == 1 && |";"| == 1;
    forall i | 0 <= i < |CleanLines(text)|
      ensures Significant(CleanLines(text)[i]) <==>
                var s := TrimSpace(CleanLines(text)[i]); !(s == "" || s[0] == '#' || s[0] == ';')
    {
      var s := TrimSpace(CleanLines(text)[i]);
      assert s != "" ==> s[..1] == [s[0]];
    }
  }
}
