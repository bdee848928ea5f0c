/** Profiles for which sanitizing changes the endpoint: by a credential block, and either way by a lone carriage return. */
module EndpointExamples {
  import opened Prelude
  import opened Text
  import opened SkipMachine
  import opened Sanitizer
  import opened Renderer
  import opened Remote

  predicate HostWord(h: string) {
    Word(h) && !IsQuote(h[0]) && !IsQuote(h[|h|-1])
  }

  function RemoteLine(host: string, port: string): string {
    "remote" + " " + (host + " " + port)
  }

  lemma WordsOfRemoteLine(host: string, port: string)
    requires Word(host) && Word(port)
    ensures Fields(RemoteLine(host, port)) == ["remote", host, port]
    ensures TrimSpace(RemoteLine(host, port)) == RemoteLine(host, port)
  {
    ThreeWords("remote", host, port);
    RemoteLineTrimmed(host, port);
  }

  lemma RemoteLineTrimmed(host: string, port: string)
    requires Word(port)
    ensures TrimSpace(RemoteLine(host, port)) == RemoteLine(host, port)
  {
    var line := RemoteLine(host, port);
    assert line[0] == 'r' && line[|line|-1] == port[|port|-1];
    EndsStay(line);
  }

  lemma RemoteName()
    ensures TrimPrefix(ToLower("remote"), "--") == "remote" && "remote" != "proto"
  {
    assert ToLower("remote") == "remote" && "--"[0] == '-' && "remote"[0] == 'r' && "proto"[0] == 'p';
  }

  lemma EffectByFields(line: string)
    requires line != "" && line[0] == 'r' && TrimSpace(line) == line && Fields(line) != []
    ensures EffectOf(line) == EffectOfFields(Fields(line))
  {
    assert "#"[0] == '#' && ";"[0] == ';';
  }

  lemma RemoteFieldsName(word: string, host: string, port: string)
    requires HostWord(host) && TrimPrefix(ToLower(word), "--") == "remote" != "proto"
    ensures EffectOfFields([word, host, port]) == Names(host, Atoi(port), None)
  {
    assert Unquote(host) == host;
  }

  lemma NamesByFields(line: string, host: string, port: string)
    requires HostWord(host) && line != "" && line[0] == 'r' && TrimSpace(line) == line
    requires Fields(line) == ["remote", host, port]
    ensures EffectOf(line) == Names(host, Atoi(port), None)
  {
    EffectByFields(line);
    RemoteName();
    RemoteFieldsName("remote", host, port);
  }

  lemma RemoteLineNames(host: string, port: string)
    requires HostWord(host) && Word(port)
    ensures EffectOf(RemoteLine(host, port)) == Names(host, Atoi(port), None)
  {
    WordsOfRemoteLine(host, port);
    assert RemoteLine(host, port)[0] == 'r';
    NamesByFields(RemoteLine(host, port), host, port);
  }

  lemma RemoteLineIsHarmless(host: string, port: string)
    requires Word(host) && Word(port) && port[|port|-1] != '\\'
    ensures Harmless(Profile(), RemoteLine(host, port))
  {
    RemoteIsKept();
    assert PlainWord("remote");
    var tail := " " + (host + " " + port);
    assert "remote" + tail == RemoteLine(host, port);
    assert (tail)[0] == ' ';
    WordStays("remote", tail);
  }

  lemma ClientIsHarmless()
    ensures Harmless(Profile(), "client") && Significant("client") && !EffectOf("client").Names?
  {
    NoClientDirective();
    assert PlainWord("client") && "client" + "" == "client";
    WordStays("client", "");
    FieldsOfWord("client", "");
    EndsStay("client");
    assert "client"[0] == 'c' && "#"[0] == '#' && ";"[0] == ';';
  }

  lemma NoClientDirective()
    ensures !IsExecutionDirective("client") && !IsReplacedDirective("client")
  {
  }

  // ------------------------------------------------------------------ a remote line inside a credential block

  lemma CloserCloses()
    ensures Closes("</auth-user-pass>", "auth-user-pass")
  {
    var s := "</" + "auth-user-pass" + ">";
    assert s == "</auth-user-pass>";
    EndsStay(s);
    assert ToLower(s) == s;
  }

  lemma RemoteLineCloses(host: string, port: string)
    requires Word(host) && Word(port)
    ensures !Closes(RemoteLine(host, port), "auth-user-pass")
  {
    WordsOfRemoteLine(host, port);
    assert ToLower(RemoteLine(host, port))[0] == 'r' && ("</" + "auth-user-pass" + ">")[0] == '<';
  }

  lemma HiddenKept(r: Rules, o: string, h: string, c: string, x: string)
    requires r.opens(o).Some? && !Closes(h, r.opens(o).value) && Closes(c, r.opens(o).value)
    requires Harmless(r, x) && Harmless(r, "") && TrimSpace(x) != ""
    ensures TrimTail(Kept(r, [o, h, c, x, ""], NORMAL)) == [x]
    ensures Skipping(FinalMode(r, [o], NORMAL))
  {
    var m := Mode(r.opens(o), false);
    assert [o, h, c, x, ""][1..] == [h, c, x, ""] && [h, c, x, ""][1..] == [c, x, ""] && [c, x, ""][1..] == [x, ""];
    assert Kept(r, [o, h, c, x, ""], NORMAL) == Kept(r, [h, c, x, ""], m);
    assert Kept(r, [h, c, x, ""], m) == Kept(r, [c, x, ""], m);
    assert Kept(r, [c, x, ""], m) == Kept(r, [x, ""], NORMAL);
    assert [x, ""] == [x] + [""];
    CleanStaysClean(r, [x]);
    assert FinalMode(r, [o], NORMAL) == FinalMode(r, [], m);
  }

  function HidingLines(host: string, port: string): seq<string> {
    ["<auth-user-pass>", RemoteLine(host, port), "</auth-user-pass>", "client"]
  }

  function HidingProfile(host: string, port: string): string {
    Join(HidingLines(host, port)) + "\n"
  }

  lemma HidingProfileLines(host: string, port: string)
    requires Word(host) && Word(port)
    ensures InputLines(HidingProfile(host, port)) == HidingLines(host, port) + [""]
    ensures '\r' !in HidingProfile(host, port)
  {
    var ls := HidingLines(host, port);
    assert OneLine(host) && OneLine(port) by {
      assert IsSpace('\n') && IsSpace('\r');
    }
    assert OneLine(RemoteLine(host, port));
    assert OneLine("<auth-user-pass>") && OneLine("</auth-user-pass>") && OneLine("client");
    LinesOfText(ls);
    JoinHasNoCr(ls);
  }

  /** Whatever address the block hides, the program reads it from the profile and sanitizing loses it. */
  lemma HiddenEndpointIsLost(host: string, port: string)
    requires HostWord(host) && Word(port)
    ensures EndpointOf(HidingProfile(host, port)).host == host
    ensures Sanitize(HidingProfile(host, port)) == Ok("client\n")
    ensures EndpointOf("client\n").host == ""
  {
    HidingProfileEndpoint(host, port);
    HidingProfileSanitized(host, port);
    ClientNamesNothing();
  }

  lemma HidingProfileEndpoint(host: string, port: string)
    requires HostWord(host) && Word(port)
    ensures EndpointOf(HidingProfile(host, port)).host == host
  {
    HidingProfileLines(host, port);
    NormalizeIsIdentity(HidingProfile(host, port));
    HidingProfileParsed(host, port);
  }

  lemma HidingProfileSanitized(host: string, port: string)
    requires Word(host) && Word(port)
    ensures Sanitize(HidingProfile(host, port)) == Ok("client\n")
  {
    HidingProfileLines(host, port);
    HidingProfileKept(host, port);
    assert CleanLines(HidingProfile(host, port)) == ["client"];
    ClientIsHarmless();
    OnlyLine("client");
    assert "client" + "\n" == "client\n";
  }

  lemma OnlyLine(x: string)
    requires Significant(x)
    ensures AnySignificant([x]) && Join([x]) == x
  {
    assert Significant([x][0]);
  }

  lemma ClientNamesNothing()
    ensures EndpointOf("client\n").host == ""
  {
    assert OneLine("client") && "client" + "\n" == "client\n";
    ClientIsHarmless();
    LineNamesNothing("client");
  }

  lemma LineNamesNothing(x: string)
    requires OneLine(x) && !EffectOf(x).Names?
    ensures EndpointOf(x + "\n").host == ""
  {
    LinesOfText([x]);
    assert Join([x]) == x;
    EmptyHasNoEffect();
    ParseOfNone([x] + [""], "unknown");
  }

  lemma EmptyHasNoEffect()
    ensures EffectOf("").Nothing?
  {
  }

  lemma HidingProfileKept(host: string, port: string)
    requires Word(host) && Word(port)
    ensures TrimTail(Kept(Profile(), HidingLines(host, port) + [""], NORMAL)) == ["client"]
  {
    var ls := HidingLines(host, port);
    assert ls + [""] == [ls[0], ls[1], ls[2], ls[3], ""];
    OpenerOpens();
    CloserCloses();
    RemoteLineCloses(host, port);
    ClientIsHarmless();
    EmptyLineIsHarmless();
    HiddenKept(Profile(), ls[0], ls[1], ls[2], ls[3]);
  }

  lemma HidingProfileParsed(host: string, port: string)
    requires HostWord(host) && Word(port)
    ensures Parse(HidingLines(host, port) + [""], "unknown").host == host
  {
    var ls := HidingLines(host, port);
    OpenerOpens();
    OpenerHasNoEffect(ls[0]);
    RemoteLineNames(host, port);
    SecondDecides(ls + [""], "unknown");
  }

  lemma SecondDecides(lines: seq<string>, protocol: string)
    requires |lines| >= 2 && !EffectOf(lines[0]).Names? && EffectOf(lines[1]).Names?
    ensures Parse(lines, protocol).host == EffectOf(lines[1]).host
  {
    assert lines == [lines[0]] + ([lines[1]] + lines[2..]);
    var e := EffectOf(lines[0]);
    ParseHead(lines[0], [lines[1]] + lines[2..], protocol);
    ParseHead(lines[1], lines[2..], if e.Proto? then e.protocol else protocol);
  }

  // ------------------------------------------------------------------ a remote line after a lone carriage return

  lemma {:induction false} LoneCrBecomesLf(a: string, b: string)
    requires '\r' !in a && '\r' !in b && (b == "" || b[0] != '\n')
    ensures Normalize(a + "\r" + b) == a + "\n" + b
  {
    var s := a + "\r" + b;
    if a == "" {
      assert s == "\r" + b && s[1..] == b;
      NormalizeIsIdentity(b);
    } else {
      assert s[0] == a[0] && a[0] in a && s[1..] == a[1..] + "\r" + b;
      LoneCrBecomesLf(a[1..], b);
      assert Normalize(s) == [a[0]] + Normalize(s[1..]);
    }
  }

  function CrProfile(host: string, port: string): string {
    "client" + "\r" + (RemoteLine(host, port) + "\n")
  }

  lemma CrProfileParsed(host: string, port: string)
    requires Word(host) && Word(port)
    ensures EndpointOf(CrProfile(host, port)).host == ""
  {
    var line := "client" + "\r" + RemoteLine(host, port);
    assert OneLine(host) && OneLine(port) by {
      assert IsSpace('\n') && IsSpace('\r');
    }
    assert '\n' !in RemoteLine(host, port) && '\n' !in line;
    assert CrProfile(host, port) == line + "\n" + "";
    LinesOfLine(line, "");
    CrLineHasNoEffect(host, port);
    EmptyHasNoEffect();
    ParseOfNone([line, ""], "unknown");
    assert [line] + [""] == [line, ""];
  }

  lemma CrLineHasNoEffect(host: string, port: string)
    requires Word(host) && Word(port)
    ensures EffectOf("client" + "\r" + RemoteLine(host, port)).Nothing?
  {
    var line := "client" + "\r" + RemoteLine(host, port);
    assert line == "client" + ("\r" + RemoteLine(host, port));
    LengthOfWord("client", "\r" + RemoteLine(host, port));
    assert line[..6] == "client";
    assert Fields(line)[0] == "client";
    FieldsTrimSpace(line);
    assert ToLower("client") == "client" && "client"[0] == 'c' && "--"[0] == '-' && "proto"[0] == 'p' && "remote"[0] == 'r';
  }

  /** A lone carriage return hides a remote line from the program, and sanitizing brings it out. */
  lemma LoneCrRevealsEndpoint(host: string, port: string)
    requires HostWord(host) && Word(port) && port[|port|-1] != '\\'
    ensures EndpointOf(CrProfile(host, port)).host == ""
    ensures Sanitize(CrProfile(host, port)).Ok? && EndpointOf(Sanitize(CrProfile(host, port)).value).host == host
  {
    CrProfileParsed(host, port);
    CrProfileLines(host, port);
    CrProfileKept(host, port);
    var line := RemoteLine(host, port);
    ClientIsHarmless();
    var clean := ["client", line];
    assert Significant(clean[0]);
    LinesOfClean(CrProfile(host, port));
    RemoteLineNames(host, port);
    assert clean + [""] == ["client"] + ([line] + [""]);
    ParseHead("client", [line] + [""], "unknown");
    ParseHead(line, [""], "unknown");
  }

  lemma CrProfileLines(host: string, port: string)
    requires Word(host) && Word(port)
    ensures InputLines(CrProfile(host, port)) == ["client", RemoteLine(host, port)] + [""]
  {
    var line := RemoteLine(host, port);
    assert OneLine(host) && OneLine(port) by {
      assert IsSpace('\n') && IsSpace('\r');
    }
    assert OneLine(line) && OneLine("client") && line[0] == 'r';
    LoneCrBecomesLf("client", line + "\n");
    assert "client" + "\n" + (line + "\n") == "client" + "\n" + (line + "\n" + "");
    LinesOfLine("client", line + "\n" + "");
    LinesOfLine(line, "");
  }

  lemma CrProfileKept(host: string, port: string)
    requires Word(host) && Word(port) && port[|port|-1] != '\\'
    ensures TrimTail(Kept(Profile(), ["client", RemoteLine(host, port)] + [""], NORMAL)) == ["client", RemoteLine(host, port)]
  {
    ClientIsHarmless();
    RemoteLineIsHarmless(host, port);
    EmptyLineIsHarmless();
    WordsOfRemoteLine(host, port);
    CleanStaysClean(Profile(), ["client", RemoteLine(host, port)]);
  }

  // ------------------------------------------------------------------ a remote line broken by a lone carriage return

  /** One line to the program, which takes the carriage return for a blank; two lines to the sanitizer. */
  function BrokenLine(host: string, port: string): string {
    "remote" + "\r" + (host + " " + port)
  }

  function BrokenProfile(host: string, port: string): string {
    "client" + "\n" + (BrokenLine(host, port) + "\n")
  }

  lemma BrokenLineFields(host: string, port: string)
    requires Word(host) && Word(port)
    ensures Fields(BrokenLine(host, port)) == ["remote", host, port]
  {
    FieldsThen("remote", '\r', host + " " + port);
    FieldsOfWord(host, port);
    FieldsOfWord(port, "");
  }

  lemma BrokenLineNames(host: string, port: string)
    requires HostWord(host) && Word(port)
    ensures EffectOf(BrokenLine(host, port)) == Names(host, Atoi(port), None)
  {
    var line := BrokenLine(host, port);
    BrokenLineFields(host, port);
    assert line[0] == 'r' && line[|line|-1] == port[|port|-1];
    EndsStay(line);
    NamesByFields(line, host, port);
  }

  lemma FewFields(line: string)
    requires |Fields(line)| < 3
    ensures !EffectOf(line).Names?
  {
    FieldsTrimSpace(line);
  }

  lemma WordsAreOneLine(host: string, port: string)
    requires Word(host) && Word(port)
    ensures OneLine(host + " " + port) && (host + " " + port)[0] == host[0] != '\n'
  {
    assert IsSpace('\n') && IsSpace('\r');
  }

  lemma OneWordNamesNone(w: string)
    requires Word(w)
    ensures !EffectOf(w).Names?
  {
    FieldsOfWord(w, "");
    FewFields(w);
  }

  lemma TwoWordsNameNone(a: string, b: string)
    requires Word(a) && Word(b)
    ensures !EffectOf(a + " " + b).Names?
  {
    FieldsOfWord(a, b);
    FieldsOfWord(b, "");
    FewFields(a + " " + b);
  }

  lemma TwoLines(a: string, b: string)
    requires '\n' !in a && '\n' !in b
    ensures Lines(a + "\n" + (b + "\n")) == [a, b, ""]
  {
    assert b + "\n" == b + "\n" + "";
    LinesOfLine(a, b + "\n");
    LinesOfLine(b, "");
  }

  lemma BrokenProfileSplit(host: string, port: string)
    requires Word(host) && Word(port)
    ensures Lines(BrokenProfile(host, port)) == ["client", BrokenLine(host, port), ""]
  {
    WordsAreOneLine(host, port);
    assert '\n' !in "client" && '\n' !in "remote" + "\r";
    TwoLines("client", BrokenLine(host, port));
  }

  lemma BrokenProfileParsed(host: string, port: string)
    requires HostWord(host) && Word(port)
    ensures EndpointOf(BrokenProfile(host, port)).host == host
  {
    BrokenProfileSplit(host, port);
    BrokenLineNames(host, port);
    ClientAndRemoteNameNone();
    SecondDecides(["client", BrokenLine(host, port), ""], "unknown");
  }

  lemma BrokenProfileLines(host: string, port: string)
    requires Word(host) && Word(port)
    ensures InputLines(BrokenProfile(host, port)) == ["client"] + ["remote", host + " " + port, ""]
  {
    var tail := host + " " + port;
    WordsAreOneLine(host, port);
    assert OneLine("client") && OneLine("remote");
    assert BrokenProfile(host, port) == "client" + "\n" + "remote" + "\r" + (tail + "\n");
    LoneCrBecomesLf("client" + "\n" + "remote", tail + "\n");
    assert "client" + "\n" + "remote" + "\n" + (tail + "\n") == "client" + "\n" + ("remote" + "\n" + (tail + "\n" + ""));
    LinesOfLine("client", "remote" + "\n" + (tail + "\n" + ""));
    LinesOfLine("remote", tail + "\n" + "");
    LinesOfLine(tail, "");
  }

  lemma NoneOfFour(a: string, b: string, c: string, d: string)
    requires !EffectOf(a).Names? && !EffectOf(b).Names? && !EffectOf(c).Names? && !EffectOf(d).Names?
    ensures NamesNone([a] + [b, c, d])
  {
  }

  lemma ClientAndRemoteNameNone()
    ensures !EffectOf("client").Names? && !EffectOf("remote").Names?
  {
    assert Word("client") && Word("remote");
    OneWordNamesNone("client");
    OneWordNamesNone("remote");
  }

  lemma BrokenLinesNameNone(host: string, port: string)
    requires Word(host) && Word(port)
    ensures NamesNone(["client"] + ["remote", host + " " + port, ""])
  {
    ClientAndRemoteNameNone();
    TwoWordsNameNone(host, port);
    EmptyHasNoEffect();
    NoneOfFour("client", "remote", host + " " + port, "");
  }

  lemma {:induction false} TrimTailKeepsFirst(x: string, rest: seq<string>)
    requires TrimSpace(x) != ""
    ensures TrimTail([x] + rest) != [] && TrimTail([x] + rest)[0] == x
  {
    var lines := [x] + rest;
    if rest == [] {
      assert lines == [x];
    } else if TrimSpace(lines[|lines|-1]) == "" {
      assert lines[..|lines|-1] == [x] + rest[..|rest|-1];
      TrimTailKeepsFirst(x, rest[..|rest|-1]);
    }
  }

  lemma StartsSignificant(r: Rules, x: string, rest: seq<string>)
    requires Harmless(r, x) && Significant(x)
    ensures AnySignificant(Cleaned(r, [x] + rest))
  {
    KeepsOne(r, x, rest);
    TrimTailKeepsFirst(x, Kept(r, rest, NORMAL));
    assert Significant(Cleaned(r, [x] + rest)[0]);
  }

  /** A remote line with a lone carriage return in it is read by the program and lost by sanitizing. */
  lemma LoneCrLosesEndpoint(host: string, port: string)
    requires HostWord(host) && Word(port)
    ensures EndpointOf(BrokenProfile(host, port)).host == host
    ensures Sanitize(BrokenProfile(host, port)).Ok? && EndpointOf(Sanitize(BrokenProfile(host, port)).value).host == ""
  {
    BrokenProfileParsed(host, port);
    BrokenProfileLines(host, port);
    BrokenLinesNameNone(host, port);
    ClientIsHarmless();
    StartsSignificant(Profile(), "client", ["remote", host + " " + port, ""]);
    SanitizedNamesNone(BrokenProfile(host, port));
  }
}
