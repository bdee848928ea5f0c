/**
 Sanitizing a rendered profile. The auth path is written into the profile as it is, so line breaks in it cut the
 auth line into pieces that the sanitizer meets one by one.
 */
module RenderedProfiles {
  import opened Prelude
  import opened Text
  import opened SkipMachine
  import opened Sanitizer
  import opened Renderer

  /** The lines the auth line amounts to. */
  function Pieces(o: Options): seq<string> {
    InputLines(AuthLine(o))
  }

  function PiecesKept(o: Options): seq<string> {
    Kept(Profile(), Pieces(o), NORMAL)
  }

  /** The mode the pieces leave the sanitizer in. */
  function PiecesMode(o: Options): Mode {
    FinalMode(Profile(), Pieces(o), NORMAL)
  }

  // ------------------------------------------------------------------ the pieces and their mode

  lemma EndsInQuote(line: string)
    requires line != "" && line[|line|-1] == '"'
    ensures !Continues(line) && ClosesNothing([line])
  {
    assert !IsBlank('"') && !IsSpace('"') && "\\"[0] == '\\';
    assert TrimRight(IsBlank, line) == line;
    forall l, block | l in [line] ensures !Closes(l, block) {
      QuoteClosesNothing(line, block);
    }
  }

  lemma QuoteClosesNothing(line: string, block: string)
    requires line != "" && line[|line|-1] == '"'
    ensures !Closes(line, block)
  {
    var closer := "</" + block + ">";
    assert TrimRight(IsSpace, line) == line;
    LastSurvives(IsSpace, line);
    var lower := ToLower(TrimSpace(line));
    assert closer[|closer|-1] == '>' && lower[|lower|-1] == '"';
  }

  lemma LastPieceIsQuoted(o: Options)
    ensures var ps := Pieces(o); ps != [] && ps[|ps|-1] != "" && ps[|ps|-1][|ps[|ps|-1]|-1] == '"'
  {
    var line := AuthLine(o);
    var front := line[..|line|-1];
    assert line == front + "\"" && "\""[0] == '"';
    NormalizeSplit(front, "\"");
    NormalizeIsIdentity("\"");
    LastOfLines(Normalize(front), '"');
  }

  lemma PiecesSettle(o: Options)
    ensures PiecesMode(o) == NORMAL || PiecesMode(o).block.Some?
  {
    var ps := Pieces(o);
    LastPieceIsQuoted(o);
    EndsInQuote(ps[|ps|-1]);
    SettledMode(Profile(), ps);
  }

  // ------------------------------------------------------------------ the managed part as lines

  /** What the manager appends. */
  function ManagedText(o: Options): string
    requires Valid(o)
  {
    Join(ManagedLines(o)) + "\n"
  }

  lemma LinesPastClean(ls: seq<string>, rest: string)
    requires ls != [] && forall l :: l in ls ==> OneLine(l)
    ensures InputLines(Join(ls) + "\n" + rest) == ls + InputLines(rest)
  {
    assert forall i :: 0 <= i < |ls| ==> ls[i] in ls;
    JoinHasNoCr(ls);
    NormalizeSplit(Join(ls) + "\n", rest);
    NormalizeIsIdentity(Join(ls) + "\n");
    LinesOfJoin(ls, Normalize(rest));
  }

  lemma JoinThree(head: seq<string>, line: string, tail: seq<string>)
    requires head != [] && tail != []
    ensures Join(head + ([line] + tail)) + "\n" == Join(head) + "\n" + (line + "\n" + (Join(tail) + "\n"))
  {
    JoinConcat(head, [line] + tail);
    JoinConcat([line], tail);
    var j, k := Join(head), Join(tail);
    assert Join([line]) == line;
    assert j + "\n" + (line + "\n" + k) + "\n" == j + "\n" + (line + "\n" + (k + "\n"));
  }

  lemma TailLines(o: Options)
    requires Valid(o)
    ensures InputLines(Join(Tail(o)) + "\n") == Tail(o) + [""]
  {
    TailUpright(o);
    LinesOfText(Tail(o));
  }

  lemma LinesOfManaged(o: Options)
    requires Valid(o)
    ensures InputLines(ManagedText(o)) == Head() + (Pieces(o) + (Tail(o) + [""]))
  {
    var line, rest := AuthLine(o), Join(Tail(o)) + "\n";
    ManagedInParts(o);
    JoinThree(Head(), line, Tail(o));
    HeadUpright();
    LinesPastClean(Head(), line + "\n" + rest);
    assert line[|line|-1] == '"';
    InputLinesConcat(line, rest);
    TailLines(o);
  }

  /** What sanitizing leaves of the managed part: the pieces that stay, and the tail unless a block swallows it. */
  lemma ManagedCleaned(o: Options)
    requires Valid(o)
    ensures Cleaned(Profile(), InputLines(ManagedText(o))) == Head() + Between(PiecesKept(o), PiecesMode(o), TailRest(o))
  {
    LinesOfManaged(o);
    HeadIsClean();
    TailKept(o);
    EmptyLineIsHarmless();
    EmptyBehind(Profile(), Tail(o), TailRest(o));
    TailRestEndsInText(o);
    TailWithEmptyCloses(o);
    PiecesSettle(o);
    CleanedBetween(Profile(), Head(), Pieces(o), Tail(o), TailRest(o));
  }

  lemma TailWithEmptyCloses(o: Options)
    requires Valid(o)
    ensures ClosesNothing(Tail(o) + [""])
  {
    TailUpright(o);
    ConcatUpright(Tail(o), [""]);
    AllUprightCloseNothing(Tail(o) + [""]);
  }

  // ------------------------------------------------------------------ the whole profile

  lemma RenderedText(text: string, o: Options)
    requires Valid(o) && Sanitize(text).Ok?
    ensures Render(text, o) == Ok(Join(CleanLines(text)) + "\n" + ManagedText(o))
  {
    var clean := Join(CleanLines(text)) + "\n";
    assert clean + Join(ManagedLines(o)) + "\n" == clean + ManagedText(o);
  }

  /**
   For every auth path, what sanitizing gives back of a rendered profile: the clean text whole, the note, the
   pieces of the auth line that stay, and then the tail without its replaced directives; or nothing more, when
   the pieces leave a credential block open.
   */
  lemma SanitizeRendered(text: string, o: Options)
    requires Valid(o) && Sanitize(text).Ok?
    ensures Render(text, o).Ok? && Sanitize(Render(text, o).value).Ok?
    ensures CleanLines(Render(text, o).value)
            == CleanLines(text) + (Head() + Between(PiecesKept(o), PiecesMode(o), TailRest(o)))
  {
    RenderedLines(text, o);
    ManagedCleaned(o);
    SignificantPast(CleanLines(text), Head() + Between(PiecesKept(o), PiecesMode(o), TailRest(o)));
  }

  lemma RenderedLines(text: string, o: Options)
    requires Valid(o) && Sanitize(text).Ok?
    ensures Render(text, o).Ok?
    ensures CleanLines(Render(text, o).value) == CleanLines(text) + Cleaned(Profile(), InputLines(ManagedText(o)))
  {
    var ls := CleanLines(text);
    RenderedText(text, o);
    OutputIsClean(text);
    LinesPastClean(ls, ManagedText(o));
    assert forall i :: 0 <= i < |ls| ==> ls[i] in ls;
    CleanedPast(Profile(), ls, InputLines(ManagedText(o)));
  }

  lemma SignificantPast(a: seq<string>, b: seq<string>)
    requires AnySignificant(a)
    ensures AnySignificant(a + b)
  {
    var i :| 0 <= i < |a| && Significant(a[i]);
    assert Significant((a + b)[i]);
  }

  // ------------------------------------------------------------------ when only the surviving lines are left

  /** Every piece is reached in a skip mode or removed itself, and none leaves a block open. */
  predicate PathVanishes(o: Options) {
    && PiecesMode(o).block.None?
    && forall i :: 0 <= i < |Pieces(o)| ==> !Keeps(Profile(), FinalMode(Profile(), Pieces(o)[..i], NORMAL), Pieces(o)[i])
  }

  /** The pieces swallow the tail and write the lines that should have stayed of it themselves. */
  predicate PathImitatesTail(o: Options)
    requires Valid(o)
  {
    PiecesMode(o).block.Some? && TrimTail(PiecesKept(o)) == TailRest(o)
  }

  lemma BetweenIff(o: Options)
    requires Valid(o)
    ensures Between(PiecesKept(o), PiecesMode(o), TailRest(o)) == TailRest(o) <==> PathVanishes(o) || PathImitatesTail(o)
  {
    PiecesSettle(o);
    KeptNothingIff(Profile(), Pieces(o), NORMAL);
    if PiecesMode(o) == NORMAL {
      assert |PiecesKept(o) + TailRest(o)| == |TailRest(o)| ==> PiecesKept(o) == [];
      assert [] + TailRest(o) == TailRest(o);
    }
  }

  lemma SameTextSameLines(c: seq<string>, x: seq<string>, s: seq<string>)
    requires c != [] && forall l :: l in c || l in x || l in s ==> OneLine(l)
    requires Join(c + x) + "\n" == Join(c + s) + "\n"
    ensures x == s
  {
    LinesOfText(c + x);
    LinesOfText(c + s);
    assert c + x == (c + x + [""])[..|c + x|] && c + s == (c + s + [""])[..|c + s|];
    assert x == (c + x)[|c|..] && s == (c + s)[|c|..];
  }

  lemma TwoParts(a: seq<string>, b: seq<string>)
    requires a != [] && b != []
    ensures Join(a) + "\n" + Join(b) + "\n" == Join(a + b) + "\n"
  {
    JoinConcat(a, b);
  }

  lemma SurvivorsOneLine(o: Options)
    requires Valid(o)
    ensures forall l :: l in SurvivingLines(o) ==> OneLine(l)
  {
    HeadUpright();
    TailUpright(o);
  }

  /** Two sanitized texts with the same clean front are equal exactly when the rest is. */
  lemma SameRest(text: string, v: string, x: seq<string>, s: seq<string>)
    requires Sanitize(text).Ok? && Sanitize(v).Ok? && CleanLines(v) == CleanLines(text) + x
    requires s != [] && forall l :: l in s ==> OneLine(l)
    ensures Sanitize(v) == Ok(Sanitize(text).value + Join(s) + "\n") <==> x == s
  {
    var c := CleanLines(text);
    OutputIsClean(text);
    CleanLinesAreHarmless(v);
    assert forall l :: l in x ==> l in CleanLines(v);
    TwoParts(c, s);
    if Join(c + x) + "\n" == Join(c + s) + "\n" {
      SameTextSameLines(c, x, s);
    }
  }

  /**
   Sanitizing a rendered profile gives back the clean text with the notes, `auth-nocache` and the bypass routes,
   and nothing else, if and only if the auth line vanishes piece by piece, or swallows the tail and imitates it.
   */
  lemma SanitizeRenderedIff(text: string, o: Options)
    requires Valid(o) && Sanitize(text).Ok?
    ensures Render(text, o).Ok?
    ensures Sanitize(Render(text, o).value) == Ok(Sanitize(text).value + Join(SurvivingLines(o)) + "\n") <==>
              PathVanishes(o) || PathImitatesTail(o)
  {
    var x := Between(PiecesKept(o), PiecesMode(o), TailRest(o));
    SanitizeRendered(text, o);
    SurvivorsOneLine(o);
    SameRest(text, Render(text, o).value, Head() + x, SurvivingLines(o));
    SamePart(Head(), x, TailRest(o));
    BetweenIff(o);
  }

  lemma SamePart(h: seq<string>, x: seq<string>, y: seq<string>)
    ensures h + x == h + y <==> x == y
  {
    assert x == (h + x)[|h|..] && y == (h + y)[|h|..];
  }

  // ------------------------------------------------------------------ a path on one line

  lemma {:induction false} EscapeIsOneLine(path: string)
    requires OneLine(path)
    ensures OneLine(EscapeQuotes(path))
  {
    if path == "" {
    } else {
      assert path[0] in path;
      EscapeIsOneLine(path[1..]);
    }
  }

  lemma OnePiece(line: string)
    requires OneLine(line)
    ensures InputLines(line) == [line]
  {
    NormalizeIsIdentity(line);
    LinesOfLine(line, "");
    LinesConcat(line, "");
    assert Lines("") == [""];
    assert (Lines(line) + [""])[..|Lines(line)|] == ([line] + [""])[..1];
  }

  lemma AuthLineIsRemoved(o: Options)
    ensures Goes(Profile(), AuthLine(o))
  {
    AuthIsReplaced();
    WordGoes("auth-user-pass", " \"" + EscapeQuotes(o.authPath) + "\"");
  }

  lemma AuthLineOneLine(o: Options)
    requires OneLine(o.authPath)
    ensures OneLine(AuthLine(o))
  {
    EscapeIsOneLine(o.authPath);
    assert OneLine("auth-user-pass") && OneLine(" \"") && OneLine("\"");
  }

  /** A path without line breaks vanishes, so what the manager added is stripped. */
  lemma OneLinePathVanishes(o: Options)
    requires OneLine(o.authPath)
    ensures PathVanishes(o)
  {
    AuthLineOneLine(o);
    OnePiece(AuthLine(o));
    AuthLineIsRemoved(o);
    DropsOne(Profile(), AuthLine(o), []);
    assert [AuthLine(o)] + [] == [AuthLine(o)];
    KeptNothingIff(Profile(), Pieces(o), NORMAL);
  }

  // ------------------------------------------------------------------ paths with line breaks

  lemma {:induction false} EscapeIsIdentity(path: string)
    requires '"' !in path
    ensures EscapeQuotes(path) == path
  {
    if path == "" {
    } else {
      assert path[0] in path;
      EscapeIsIdentity(path[1..]);
      assert path == [path[0]] + path[1..];
    }
  }

  /** The first piece of a path that begins with `start` and a line feed. */
  function FirstPiece(start: string): string {
    "auth-user-pass" + (" \"" + start)
  }

  lemma CutAuthLine(o: Options, start: string, rest: string)
    requires o.authPath == start + "\n" + rest && '"' !in o.authPath
    ensures AuthLine(o) == FirstPiece(start) + "\n" + (rest + "\"")
  {
    EscapeIsIdentity(o.authPath);
    assert "auth-user-pass" + (" \"" + (start + "\n" + rest) + "\"") == "auth-user-pass" + (" \"" + start) + "\n" + (rest + "\"");
  }

  lemma FirstPieceOneLine(start: string)
    requires OneLine(start)
    ensures OneLine(FirstPiece(start))
  {
    assert OneLine("auth-user-pass") && OneLine(" \"");
  }

  lemma CutPieces(o: Options, start: string, rest: string)
    requires o.authPath == start + "\n" + rest && '"' !in o.authPath && OneLine(start)
    ensures Pieces(o) == [FirstPiece(start)] + InputLines(rest + "\"")
  {
    CutAuthLine(o, start, rest);
    FirstPieceOneLine(start);
    assert FirstPiece(start)[|FirstPiece(start)|-1] in FirstPiece(start);
    InputLinesConcat(FirstPiece(start), rest + "\"");
    OnePiece(FirstPiece(start));
  }

  /** The first piece always names the removed directive. */
  lemma FirstPieceIsRemoved(start: string)
    ensures NamesRemoved(FirstPiece(start)) && OpensCredentials(FirstPiece(start)).None?
  {
    AuthIsReplaced();
    NameOfLine("auth-user-pass", " \"" + start);
  }

  lemma QuotedOpensNothing(line: string)
    requires line != "" && line[|line|-1] == '"'
    ensures OpensCredentials(line).None?
  {
    assert TrimRight(IsSpace, line) == line;
    LastSurvives(IsSpace, line);
    var lower := ToLower(TrimSpace(line));
    assert lower[|lower|-1] == '"' && ">"[0] == '>';
  }

  lemma KeptOfTwo(r: Rules, a: string, b: string)
    requires r.opens(a).None? && r.names(a) && r.opens(b).None? && !Continues(b)
    ensures Kept(r, [a, b], NORMAL) == if Continues(a) || r.names(b) then [] else [TrimRight(IsBlank, b)]
    ensures FinalMode(r, [a, b], NORMAL) == NORMAL
  {
    assert [a, b][1..] == [b] && [b][1..] == [];
    var m := Step(r, NORMAL, a);
    assert Kept(r, [a, b], NORMAL) == Kept(r, [b], m);
    assert FinalMode(r, [a, b], NORMAL) == FinalMode(r, [b], m) == Step(r, m, b);
  }

  lemma TwoPieces(o: Options, start: string, end: string)
    requires o.authPath == start + "\n" + end && '"' !in o.authPath && OneLine(start) && OneLine(end)
    ensures PiecesMode(o) == NORMAL
    ensures PiecesKept(o) == if Continues(FirstPiece(start)) || NamesRemoved(end + "\"") then [] else [end + "\""]
  {
    var last := end + "\"";
    CutPieces(o, start, end);
    OnePiece(last);
    assert [FirstPiece(start)] + [last] == [FirstPiece(start), last];
    FirstPieceIsRemoved(start);
    QuotedOpensNothing(last);
    EndsInQuote(last);
    assert TrimRight(IsBlank, last) == last;
    KeptOfTwo(Profile(), FirstPiece(start), last);
  }

  /** A path with one line feed vanishes exactly when a backslash precedes it or the second half is a removed directive. */
  lemma TwoPiecesVanishIff(o: Options, start: string, end: string)
    requires o.authPath == start + "\n" + end && '"' !in o.authPath && OneLine(start) && OneLine(end)
    ensures PathVanishes(o) <==> Continues(FirstPiece(start)) || NamesRemoved(end + "\"")
  {
    TwoPieces(o, start, end);
    KeptNothingIff(Profile(), Pieces(o), NORMAL);
  }

  lemma NoHalfDirective()
    ensures !IsExecutionDirective("b\"") && !IsReplacedDirective("b\"")
  {
  }

  lemma HalfIsNotRemoved()
    ensures !NamesRemoved("b\"")
  {
    NoHalfDirective();
    assert PlainWord("b\"") && "b\"" + "" == "b\"";
    NameOfLine("b\"", "");
  }

  lemma HalfDoesNotContinue()
    ensures !Continues(FirstPiece("a"))
  {
    var line := FirstPiece("a");
    assert line[|line|-1] == 'a' && "\\"[0] == '\\';
    assert TrimRight(IsBlank, line) == line;
  }

  lemma SplitsAtBreak()
    ensures "a\nb" == "a" + "\n" + "b" && '"' !in "a\nb" && OneLine("a") && OneLine("b")
  {
  }

  /** A line break in the auth path leaves the second half of the path behind as a line of its own. */
  lemma BrokenPathStays(text: string, o: Options)
    requires Valid(o) && Sanitize(text).Ok? && o.authPath == "a\nb"
    ensures Render(text, o).Ok?
    ensures CleanLines(Render(text, o).value) == CleanLines(text) + (Head() + (["b\""] + TailRest(o)))
    ensures Sanitize(Render(text, o).value) != Ok(Sanitize(text).value + Join(SurvivingLines(o)) + "\n")
  {
    SplitsAtBreak();
    HalfIsNotRemoved();
    HalfDoesNotContinue();
    assert "b" + "\"" == "b\"";
    TwoPieces(o, "a", "b");
    TwoPiecesVanishIff(o, "a", "b");
    SanitizeRendered(text, o);
    SanitizeRenderedIff(text, o);
  }

  // ------------------------------------------------------------------ a path that opens a credential block

  lemma KeptOfThree(r: Rules, a: string, b: string, c: string)
    requires r.opens(a).None? && r.names(a) && r.opens(b).Some? && ClosesNothing([c])
    ensures Kept(r, [a, b, c], NORMAL) == [] && FinalMode(r, [a, b, c], NORMAL).block == r.opens(b)
  {
    assert [a, b, c][1..] == [b, c] && [b, c][1..] == [c] && [c][1..] == [] && c in [c];
    var m := Step(r, NORMAL, a);
    var m' := Step(r, m, b);
    assert Kept(r, [a, b, c], NORMAL) == Kept(r, [b, c], m) == Kept(r, [c], m');
    assert FinalMode(r, [a, b, c], NORMAL) == FinalMode(r, [b, c], m) == FinalMode(r, [c], m') == Step(r, m', c);
  }

  lemma OpeningPieces(o: Options, start: string, opener: string, end: string)
    requires o.authPath == start + "\n" + (opener + "\n" + end) && '"' !in o.authPath
    requires OneLine(start) && OneLine(opener) && OneLine(end) && OpensCredentials(opener).Some?
    ensures PiecesKept(o) == [] && PiecesMode(o).block.Some?
  {
    var last := end + "\"";
    CutPieces(o, start, opener + "\n" + end);
    assert opener + "\n" + end + "\"" == opener + "\n" + last;
    assert opener != "" ==> opener[|opener|-1] in opener;
    InputLinesConcat(opener, last);
    OnePiece(opener);
    OnePiece(last);
    assert [FirstPiece(start)] + ([opener] + [last]) == [FirstPiece(start), opener, last];
    FirstPieceIsRemoved(start);
    EndsInQuote(last);
    KeptOfThree(Profile(), FirstPiece(start), opener, last);
  }

  /**
   An auth path with the opener of a credential block on a line of its own swallows every managed line behind it,
   `auth-nocache` and the bypass routes included.
   */
  lemma OpeningPathSwallows(text: string, o: Options, start: string, opener: string, end: string)
    requires Valid(o) && Sanitize(text).Ok? && o.authPath == start + "\n" + (opener + "\n" + end) && '"' !in o.authPath
    requires OneLine(start) && OneLine(opener) && OneLine(end) && OpensCredentials(opener).Some?
    ensures Render(text, o).Ok? && CleanLines(Render(text, o).value) == CleanLines(text) + Head()
    ensures Sanitize(Render(text, o).value) != Ok(Sanitize(text).value + Join(SurvivingLines(o)) + "\n")
  {
    OpeningPieces(o, start, opener, end);
    SanitizeRendered(text, o);
    KeptNothingIff(Profile(), Pieces(o), NORMAL);
    assert Head() + [] == Head();
    SanitizeRenderedIff(text, o);
  }

  lemma OpenerIsOneLine()
    ensures OneLine("<auth-user-pass>") && '"' !in "a" + "\n" + ("<auth-user-pass>" + "\n" + "b") && OneLine("a") && OneLine("b")
  {
  }

  /** Such paths exist. */
  lemma OpeningPathExists(text: string, o: Options)
    requires Valid(o) && Sanitize(text).Ok? && o.authPath == "a" + "\n" + ("<auth-user-pass>" + "\n" + "b")
    ensures Render(text, o).Ok? && CleanLines(Render(text, o).value) == CleanLines(text) + Head()
  {
    OpenerOpens();
    OpenerIsOneLine();
    OpeningPathSwallows(text, o, "a", "<auth-user-pass>", "b");
  }

  // ------------------------------------------------------------------ a path that imitates the tail

  lemma KeptOfFour(r: Rules, a: string, b: string, c: string, d: string)
    requires Goes(r, a) && Harmless(r, b) && r.opens(c).Some? && ClosesNothing([d])
    ensures Kept(r, [a, b, c, d], NORMAL) == [b] && FinalMode(r, [a, b, c, d], NORMAL).block.Some?
  {
    assert [a, b, c, d] == [a] + ([b] + [c, d]);
    DropsOne(r, a, [b] + [c, d]);
    KeepsOne(r, b, [c, d]);
    assert [c, d][1..] == [d] && [d][1..] == [] && d in [d];
    var m := Step(r, NORMAL, c);
    assert Kept(r, [c, d], NORMAL) == Kept(r, [d], m) == [];
    assert FinalMode(r, [c, d], NORMAL) == FinalMode(r, [d], m) == Step(r, m, d);
  }

  lemma ImitatingPieces(o: Options, start: string, line: string, opener: string, end: string)
    requires o.authPath == start + "\n" + (line + "\n" + (opener + "\n" + end)) && '"' !in o.authPath
    requires OneLine(start) && OneLine(line) && OneLine(opener) && OneLine(end)
    requires !Continues(FirstPiece(start)) && Harmless(Profile(), line) && OpensCredentials(opener).Some?
    ensures PiecesKept(o) == [line] && PiecesMode(o).block.Some?
  {
    var last := end + "\"";
    CutPieces(o, start, line + "\n" + (opener + "\n" + end));
    assert line + "\n" + (opener + "\n" + end) + "\"" == line + "\n" + (opener + "\n" + last);
    assert line != "" ==> line[|line|-1] in line;
    assert opener != "" ==> opener[|opener|-1] in opener;
    InputLinesConcat(line, opener + "\n" + last);
    InputLinesConcat(opener, last);
    OnePiece(line);
    OnePiece(opener);
    OnePiece(last);
    assert [FirstPiece(start)] + ([line] + ([opener] + [last])) == [FirstPiece(start), line, opener, last];
    FirstPieceIsRemoved(start);
    EndsInQuote(last);
    KeptOfFour(Profile(), FirstPiece(start), line, opener, last);
  }

  /** The manager's lines when there is no proxy, no Windows and no bypass address. */
  lemma BareTail(o: Options)
    requires Valid(o) && !o.useProxy && o.goos != "windows" && o.bypassIPs == []
    ensures TailRest(o) == ["auth-nocache"]
  {
  }

  lemma NoQuoteThere()
    ensures '"' !in "a" + "\n" + ("auth-nocache" + "\n" + ("<auth-user-pass>" + "\n" + "b"))
  {
  }

  /** The second alternative of the condition occurs: the tail is swallowed and its one line written by the path. */
  lemma ImitatingPathExists(o: Options)
    requires Valid(o) && !o.useProxy && o.goos != "windows" && o.bypassIPs == []
    requires o.authPath == "a" + "\n" + ("auth-nocache" + "\n" + ("<auth-user-pass>" + "\n" + "b"))
    ensures PathImitatesTail(o) && !PathVanishes(o)
  {
    OpenerOpens();
    OpenerIsOneLine();
    NoQuoteThere();
    NocacheStays();
    NocacheUpright();
    HalfDoesNotContinue();
    ImitatingPieces(o, "a", "auth-nocache", "<auth-user-pass>", "b");
    BareTail(o);
    LineStays("auth-nocache");
  }

  lemma LineStays(line: string)
    requires TrimSpace(line) != ""
    ensures TrimTail([line]) == [line]
  {
  }
}
