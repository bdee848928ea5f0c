/** The string operations the profile code is built from, with Go's meaning of white space and lower case. */
module Text {

  /** unicode.IsSpace */
  predicate IsSpace(c: char) {
    c in {'\t', '\n', '\U{000B}', '\U{000C}', '\r', ' ', '\U{0085}', '\U{00A0}', '\U{1680}',
          '\U{2028}', '\U{2029}', '\U{202F}', '\U{205F}', '\U{3000}'}
    || '\U{2000}' <= c <= '\U{200A}'
  }

  predicate IsBlank(c: char) {
    c == ' ' || c == '\t'
  }

  function TrimRight(drop: char -> bool, s: string): string {
    if s != "" && drop(s[|s|-1]) then TrimRight(drop, s[..|s|-1]) else s
  }

  function TrimLeft(drop: char -> bool, s: string): string {
    if s != "" && drop(s[0]) then TrimLeft(drop, s[1..]) else s
  }

  function TrimSpace(s: string): string {
    TrimLeft(IsSpace, TrimRight(IsSpace, s))
  }

  predicate HasPrefix(s: string, prefix: string) {
    prefix <= s
  }

  predicate HasSuffix(s: string, suffix: string) {
    |suffix| <= |s| && s[|s|-|suffix|..] == suffix
  }

  function TrimPrefix(s: string, prefix: string): string {
    if prefix <= s then s[|prefix|..] else s
  }

  /**
   unicode.ToLower as far as it can produce ASCII: the Kelvin sign and the dotted capital I are the only
   letters outside ASCII with an ASCII lower case. Other letters are left as they are, which no comparison
   with an ASCII name can tell apart.
   */
  function Lower(c: char): char {
    if 'A' <= c <= 'Z' then c - 'A' + 'a'
    else if c == '\U{212A}' then 'k'
    else if c == '\U{0130}' then 'i'
    else c
  }

  function ToLower(s: string): (r: string)
    ensures |r| == |s|
  {
    seq(|s|, i requires 0 <= i < |s| => Lower(s[i]))
  }

  // ------------------------------------------------------------------ fields

  /** Length of the longest prefix without white space. */
  function WordLength(s: string): (n: nat)
    ensures n <= |s|
    ensures s != "" && !IsSpace(s[0]) ==> n > 0
  {
    if s == "" || IsSpace(s[0]) then 0 else 1 + WordLength(s[1..])
  }

  function Fields(s: string): seq<string>
    decreases |s|
  {
    if s == "" then []
    else if IsSpace(s[0]) then Fields(s[1..])
    else [s[..WordLength(s)]] + Fields(s[WordLength(s)..])
  }

  function Concat(words: seq<string>): string {
    if words == [] then "" else words[0] + Concat(words[1..])
  }

  /** `s` without its white space. */
  function Strip(s: string): string {
    if s == "" then "" else (if IsSpace(s[0]) then "" else [s[0]]) + Strip(s[1..])
  }

  lemma {:induction false} StripWord(s: string)
    ensures Strip(s) == s[..WordLength(s)] + Strip(s[WordLength(s)..])
  {
    if s != "" && !IsSpace(s[0]) {
      StripWord(s[1..]);
      var n := WordLength(s[1..]);
      assert s[1..][n..] == s[n+1..] && s[..n+1] == [s[0]] + s[1..][..n];
    }
  }

  /** Joining the fields with nothing in between removes the white space and nothing else. */
  lemma {:induction false} ConcatFields(s: string)
    ensures Concat(Fields(s)) == Strip(s)
    decreases |s|
  {
    if s == "" {
    } else {
      if IsSpace(s[0]) {
        ConcatFields(s[1..]);
      } else {
        StripWord(s);
        ConcatFields(s[WordLength(s)..]);
      }
    }
  }

  lemma {:induction false} WordThenSpace(s: string, c: char)
    requires IsSpace(c)
    ensures WordLength(s + [c]) == WordLength(s)
  {
    if s != "" && !IsSpace(s[0]) {
      assert (s + [c])[1..] == s[1..] + [c];
      WordThenSpace(s[1..], c);
    }
  }

  lemma {:induction false} FieldsThenSpace(s: string, c: char)
    requires IsSpace(c)
    ensures Fields(s + [c]) == Fields(s)
    decreases |s|
  {
    if s == "" {
      assert s + [c] == [c];
      assert Fields([c]) == Fields([c][1..]);
    } else if IsSpace(s[0]) {
      assert (s + [c])[1..] == s[1..] + [c];
      FieldsThenSpace(s[1..], c);
    } else {
      var n := WordLength(s);
      WordThenSpace(s, c);
      assert (s + [c])[..n] == s[..n] && (s + [c])[n..] == s[n..] + [c];
      FieldsThenSpace(s[n..], c);
    }
  }

  lemma {:induction false} FieldsTrimRight(drop: char -> bool, s: string)
    requires forall c :: drop(c) ==> IsSpace(c)
    ensures Fields(TrimRight(drop, s)) == Fields(s)
  {
    if s != "" && drop(s[|s|-1]) {
      FieldsTrimRight(drop, s[..|s|-1]);
      assert s == s[..|s|-1] + [s[|s|-1]];
      FieldsThenSpace(s[..|s|-1], s[|s|-1]);
    }
  }

  lemma {:induction false} FieldsTrimLeft(s: string)
    ensures Fields(TrimLeft(IsSpace, s)) == Fields(s)
  {
    if s != "" && IsSpace(s[0]) {
      FieldsTrimLeft(s[1..]);
    }
  }

  lemma FieldsTrimSpace(s: string)
    ensures Fields(TrimSpace(s)) == Fields(s)
  {
    FieldsTrimRight(IsSpace, s);
    FieldsTrimLeft(TrimRight(IsSpace, s));
  }

  lemma {:induction false} TrimRightTwice(inner: char -> bool, outer: char -> bool, s: string)
    requires forall c :: inner(c) ==> outer(c)
    ensures TrimRight(outer, TrimRight(inner, s)) == TrimRight(outer, s)
  {
    if s != "" && inner(s[|s|-1]) {
      TrimRightTwice(inner, outer, s[..|s|-1]);
    }
  }

  /** Dropping blanks at the end does not change what TrimSpace sees. */
  lemma TrimSpaceOfTrimRight(s: string)
    ensures TrimSpace(TrimRight(IsBlank, s)) == TrimSpace(s)
  {
    TrimRightTwice(IsBlank, IsSpace, s);
  }

  lemma {:induction false} TrimRightKeepsPrefix(drop: char -> bool, s: string)
    ensures TrimRight(drop, s) <= s
  {
    if s != "" && drop(s[|s|-1]) {
      TrimRightKeepsPrefix(drop, s[..|s|-1]);
    }
  }

  lemma EndsStay(s: string)
    requires s != "" && !IsSpace(s[0]) && !IsSpace(s[|s|-1])
    ensures TrimSpace(s) == s
  {
  }

  lemma {:induction false} FirstSurvives(drop: char -> bool, s: string)
    requires s != "" && !drop(s[0])
    ensures TrimRight(drop, s) != "" && TrimRight(drop, s)[0] == s[0]
  {
    if drop(s[|s|-1]) {
      FirstSurvives(drop, s[..|s|-1]);
    }
  }

  lemma {:induction false} LengthOfWord(w: string, tail: string)
    requires forall i :: 0 <= i < |w| ==> !IsSpace(w[i])
    requires tail == "" || IsSpace(tail[0])
    ensures WordLength(w + tail) == |w|
  {
    if w == "" {
      assert w + tail == tail;
    } else {
      assert (w + tail)[1..] == w[1..] + tail;
      LengthOfWord(w[1..], tail);
    }
  }

  lemma FieldsThen(w: string, c: char, rest: string)
    requires w != "" && IsSpace(c) && forall i :: 0 <= i < |w| ==> !IsSpace(w[i])
    ensures Fields(w + [c] + rest) == [w] + Fields(rest)
  {
    var s := w + [c] + rest;
    assert s == w + ([c] + rest);
    LengthOfWord(w, [c] + rest);
    assert s[..|w|] == w && s[|w|..] == [c] + rest && ([c] + rest)[1..] == rest;
  }

  lemma FieldsOfWord(w: string, rest: string)
    requires w != "" && forall i :: 0 <= i < |w| ==> !IsSpace(w[i])
    ensures Fields(w + " " + rest) == [w] + Fields(rest)
    ensures Fields(w) == [w]
  {
    FieldsThen(w, ' ', rest);
    assert w + "" == w;
    LengthOfWord(w, "");
    assert w[..|w|] == w && w[|w|..] == "";
  }

  /** A nonempty text without white space. */
  predicate Word(w: string) {
    w != "" && forall i :: 0 <= i < |w| ==> !IsSpace(w[i])
  }

  lemma ThreeWords(a: string, b: string, c: string)
    requires Word(a) && Word(b) && Word(c)
    ensures Fields(a + " " + (b + " " + c)) == [a, b, c]
  {
    FieldsOfWord(a, b + " " + c);
    FieldsOfWord(b, c);
    FieldsOfWord(c, "");
  }

  // ------------------------------------------------------------------ lines

  /** strings.Split(s, "\n") */
  function Lines(s: string): (r: seq<string>)
    ensures r != []
    ensures forall i :: 0 <= i < |r| ==> '\n' !in r[i]
  {
    if s == "" then [""]
    else if s[0] == '\n' then [""] + Lines(s[1..])
    else [[s[0]] + Lines(s[1..])[0]] + Lines(s[1..])[1..]
  }

  /** strings.Join(lines, "\n") */
  function Join(lines: seq<string>): string {
    if lines == [] then ""
    else if |lines| == 1 then lines[0]
    else lines[0] + "\n" + Join(lines[1..])
  }

  lemma {:induction false} LinesOfLine(line: string, rest: string)
    requires '\n' !in line
    ensures Lines(line + "\n" + rest) == [line] + Lines(rest)
  {
    var s := line + "\n" + rest;
    if line == "" {
      assert s[1..] == rest;
    } else {
      assert s[1..] == line[1..] + "\n" + rest && s[0] == line[0] && line[0] in line;
      LinesOfLine(line[1..], rest);
      assert line == [line[0]] + line[1..];
    }
  }

  lemma JoinHead(lines: seq<string>, rest: string)
    requires |lines| > 1
    ensures Join(lines) + "\n" + rest == lines[0] + "\n" + (Join(lines[1..]) + "\n" + rest)
  {
    var tail := Join(lines[1..]);
    assert Join(lines) == lines[0] + "\n" + tail;
    assert lines[0] + "\n" + tail + "\n" + rest == lines[0] + "\n" + (tail + "\n" + rest);
  }

  lemma LinesPastHead(lines: seq<string>, rest: string)
    requires |lines| > 1 && '\n' !in lines[0]
    requires Lines(Join(lines[1..]) + "\n" + rest) == lines[1..] + Lines(rest)
    ensures Lines(Join(lines) + "\n" + rest) == lines + Lines(rest)
  {
    JoinHead(lines, rest);
    LinesOfLine(lines[0], Join(lines[1..]) + "\n" + rest);
    assert lines + Lines(rest) == [lines[0]] + (lines[1..] + Lines(rest));
  }

  /** Splitting what was joined with a final newline gives the lines and one empty line. */
  lemma {:induction false} LinesOfJoin(lines: seq<string>, rest: string)
    requires lines != [] && forall i :: 0 <= i < |lines| ==> '\n' !in lines[i]
    ensures Lines(Join(lines) + "\n" + rest) == lines + Lines(rest)
  {
    if |lines| == 1 {
      LinesOfLine(lines[0], rest);
      assert lines == [lines[0]];
    } else {
      LinesOfJoin(lines[1..], rest);
      LinesPastHead(lines, rest);
    }
  }

  lemma {:induction false} JoinConcat(a: seq<string>, b: seq<string>)
    requires a != [] && b != []
    ensures Join(a + b) == Join(a) + "\n" + Join(b)
  {
    if |a| == 1 {
      assert (a + b)[1..] == b;
    } else {
      assert (a + b)[1..] == a[1..] + b;
      JoinConcat(a[1..], b);
    }
  }

  // ------------------------------------------------------------------ line ends

  /** strings.ReplaceAll(s, "\r\n", "\n") */
  function DropCrBeforeLf(s: string): string
    decreases |s|
  {
    if s == "" then ""
    else if |s| >= 2 && s[0] == '\r' && s[1] == '\n' then "\n" + DropCrBeforeLf(s[2..])
    else [s[0]] + DropCrBeforeLf(s[1..])
  }

  /** strings.ReplaceAll(s, "\r", "\n") */
  function CrToLf(s: string): string {
    if s == "" then "" else [if s[0] == '\r' then '\n' else s[0]] + CrToLf(s[1..])
  }

  function Normalize(s: string): string {
    CrToLf(DropCrBeforeLf(s))
  }

  lemma {:induction false} NoCrAfterNormalize(s: string)
    ensures '\r' !in CrToLf(s)
  {
    if s == "" {
    } else {
      NoCrAfterNormalize(s[1..]);
    }
  }

  lemma {:induction false} NormalizeIsIdentity(s: string)
    requires '\r' !in s
    ensures Normalize(s) == s
  {
    if s == "" {
    } else {
      NormalizeIsIdentity(s[1..]);
      assert s == [s[0]] + s[1..];
    }
  }

  lemma {:induction false} CrToLfConcat(a: string, b: string)
    ensures CrToLf(a + b) == CrToLf(a) + CrToLf(b)
  {
    if a == "" {
      assert a + b == b;
    } else {
      assert (a + b)[1..] == a[1..] + b;
      CrToLfConcat(a[1..], b);
    }
  }

  /** The cut does not run through a CR LF pair. */
  predicate CutsNoPair(a: string, b: string) {
    a == "" || b == "" || a[|a|-1] != '\r' || b[0] != '\n'
  }

  lemma {:induction false} DropCrSplit(a: string, b: string)
    requires CutsNoPair(a, b)
    ensures DropCrBeforeLf(a + b) == DropCrBeforeLf(a) + DropCrBeforeLf(b)
    decreases |a|
  {
    if a == "" {
      assert a + b == b;
    } else {
      var n := if |a| >= 2 && a[0] == '\r' && a[1] == '\n' then 2 else 1;
      assert (a + b)[n..] == a[n..] + b;
      DropCrSplit(a[n..], b);
    }
  }

  /** Normalizing in two parts. */
  lemma NormalizeSplit(a: string, b: string)
    requires CutsNoPair(a, b)
    ensures Normalize(a + b) == Normalize(a) + Normalize(b)
  {
    DropCrSplit(a, b);
    CrToLfConcat(DropCrBeforeLf(a), DropCrBeforeLf(b));
  }

  lemma NormalizeHead(s: string)
    requires s != "" && !(|s| >= 2 && s[0] == '\r' && s[1] == '\n')
    ensures Normalize(s) == [if s[0] == '\r' then '\n' else s[0]] + Normalize(s[1..])
  {
    assert DropCrBeforeLf(s) == [s[0]] + DropCrBeforeLf(s[1..]);
    assert DropCrBeforeLf(s)[1..] == DropCrBeforeLf(s[1..]);
  }

  lemma {:induction false} LinesConcat(a: string, b: string)
    ensures Lines(a + "\n" + b) == Lines(a) + Lines(b)
  {
    var s := a + "\n" + b;
    if a == "" {
      assert s[1..] == b;
    } else {
      assert s[1..] == a[1..] + "\n" + b && s[0] == a[0];
      LinesConcat(a[1..], b);
    }
  }

  lemma {:induction false} LastOfLines(s: string, c: char)
    requires c != '\n'
    ensures var ls := Lines(s + [c]); ls[|ls|-1] != "" && ls[|ls|-1][|ls[|ls|-1]|-1] == c
  {
    if s == "" {
      assert s + [c] == [c] && [c][1..] == "";
    } else {
      assert (s + [c])[1..] == s[1..] + [c] && (s + [c])[0] == s[0];
      LastOfLines(s[1..], c);
    }
  }

  lemma {:induction false} LastSurvives(drop: char -> bool, s: string)
    requires s != "" && !drop(s[|s|-1])
    ensures TrimLeft(drop, s) != "" && TrimLeft(drop, s)[|TrimLeft(drop, s)|-1] == s[|s|-1]
  {
    if drop(s[0]) {
      LastSurvives(drop, s[1..]);
    }
  }
}
