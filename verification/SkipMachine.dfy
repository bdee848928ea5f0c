/**
 The line machine of the profile sanitizer, for any rule saying which lines open a block to be skipped and
 which lines are to be removed. It walks the lines once with two independent skip modes.
 */
module SkipMachine {
  import opened Prelude
  import opened Text

  /** `opens` gives the name of the block a raw line opens; `names` says that it is a removed directive. */
  datatype Rules = Rules(opens: string -> Option<string>, names: string -> bool)

  /** Blanks at the end of a line must not matter to the rules. */
  ghost predicate BlindToTail(r: Rules) {
    forall raw :: r.opens(TrimRight(IsBlank, raw)) == r.opens(raw) && r.names(TrimRight(IsBlank, raw)) == r.names(raw)
  }

  /** The two skip modes; a block may open inside a continuation, which then goes on after the block. */
  datatype Mode = Mode(block: Option<string>, continuation: bool)

  const NORMAL := Mode(None, false)

  predicate Skipping(m: Mode) {
    m.block.Some? || m.continuation
  }

  predicate Continues(raw: string) {
    HasSuffix(TrimRight(IsBlank, raw), "\\")
  }

  predicate Closes(raw: string, block: string) {
    ToLower(TrimSpace(raw)) == "</" + block + ">"
  }

  predicate Keeps(r: Rules, m: Mode, raw: string) {
    !Skipping(m) && r.opens(raw).None? && !r.names(raw)
  }

  function Step(r: Rules, m: Mode, raw: string): Mode {
    if m.block.Some? then if Closes(raw, m.block.value) then m.(block := None) else m
    else if r.opens(raw).Some? then m.(block := r.opens(raw))
    else if m.continuation || r.names(raw) then m.(continuation := Continues(raw))
    else m
  }

  function Kept(r: Rules, lines: seq<string>, m: Mode): seq<string> {
    if lines == [] then []
    else
      (if Keeps(r, m, lines[0]) then [TrimRight(IsBlank, lines[0])] else [])
      + Kept(r, lines[1..], Step(r, m, lines[0]))
  }

  function FinalMode(r: Rules, lines: seq<string>, m: Mode): Mode {
    if lines == [] then m else FinalMode(r, lines[1..], Step(r, m, lines[0]))
  }

  /** Drops empty lines at the end. */
  function TrimTail(lines: seq<string>): seq<string> {
    if lines != [] && TrimSpace(lines[|lines|-1]) == "" then TrimTail(lines[..|lines|-1]) else lines
  }

  /** What the machine makes of a text. */
  function Cleaned(r: Rules, lines: seq<string>): seq<string> {
    TrimTail(Kept(r, lines, NORMAL))
  }

  lemma KeptFrom(r: Rules, done: seq<string>, input: seq<string>, i: nat, m: Mode)
    requires i < |input|
    ensures done + Kept(r, input[i..], m)
            == (if Keeps(r, m, input[i]) then done + [TrimRight(IsBlank, input[i])] else done)
               + Kept(r, input[i+1..], Step(r, m, input[i]))
  {
    assert input[i..][1..] == input[i+1..];
  }

  /** The loop over the lines, with the program's two skip variables. */
  method Walk(r: Rules, input: seq<string>) returns (lines: seq<string>)
    ensures lines == Kept(r, input, NORMAL)
  {
    lines := [];
    var skippedBlock: Option<string> := None;
    var skipContinuation := false;
    for i := 0 to |input|
      invariant Kept(r, input, NORMAL) == lines + Kept(r, input[i..], Mode(skippedBlock, skipContinuation))
    {
      var rawLine := input[i];
      KeptFrom(r, lines, input, i, Mode(skippedBlock, skipContinuation));
      if skippedBlock.Some? {
        if Closes(rawLine, skippedBlock.value) {
          skippedBlock := None;
        }
        continue;
      }
      if r.opens(rawLine).Some? {
        skippedBlock := r.opens(rawLine);
        continue;
      }
      if skipContinuation {
        skipContinuation := Continues(rawLine);
        continue;
      }
      if r.names(rawLine) {
        skipContinuation := Continues(rawLine);
        continue;
      }
      lines := lines + [TrimRight(IsBlank, rawLine)];
    }
  }

  method DropTail(input: seq<string>) returns (lines: seq<string>)
    ensures lines == TrimTail(input)
  {
    lines := input;
    while |lines| > 0 && TrimSpace(lines[|lines|-1]) == ""
      invariant TrimTail(lines) == TrimTail(input)
      decreases |lines|
    {
      lines := lines[..|lines|-1];
    }
  }

  // ------------------------------------------------------------------ what is kept

  /** A line the machine leaves alone. */
  predicate Harmless(r: Rules, line: string) {
    r.opens(line).None? && !r.names(line) && TrimRight(IsBlank, line) == line
  }

  predicate OneLine(s: string) {
    '\n' !in s && '\r' !in s
  }

  lemma {:induction false} KeptIsHarmless(r: Rules, lines: seq<string>, m: Mode)
    requires BlindToTail(r) && forall i :: 0 <= i < |lines| ==> OneLine(lines[i])
    ensures forall l :: l in Kept(r, lines, m) ==> Harmless(r, l) && OneLine(l)
  {
    if lines == [] {
    } else {
      TrimRightTwice(IsBlank, IsBlank, lines[0]);
      TrimRightKeepsPrefix(IsBlank, lines[0]);
      KeptIsHarmless(r, lines[1..], Step(r, m, lines[0]));
    }
  }

  lemma {:induction false} KeptLeavesHarmless(r: Rules, lines: seq<string>)
    requires forall i :: 0 <= i < |lines| ==> Harmless(r, lines[i])
    ensures Kept(r, lines, NORMAL) == lines && FinalMode(r, lines, NORMAL) == NORMAL
  {
    if lines == [] {
    } else {
      KeptLeavesHarmless(r, lines[1..]);
      assert lines == [lines[0]] + lines[1..];
    }
  }

  lemma KeepsOne(r: Rules, line: string, rest: seq<string>)
    requires Harmless(r, line)
    ensures Kept(r, [line] + rest, NORMAL) == [line] + Kept(r, rest, NORMAL)
    ensures FinalMode(r, [line] + rest, NORMAL) == FinalMode(r, rest, NORMAL)
  {
    assert ([line] + rest)[1..] == rest;
  }

  lemma DropsOne(r: Rules, line: string, rest: seq<string>)
    requires Goes(r, line)
    ensures Kept(r, [line] + rest, NORMAL) == Kept(r, rest, NORMAL)
    ensures FinalMode(r, [line] + rest, NORMAL) == FinalMode(r, rest, NORMAL)
  {
    assert ([line] + rest)[1..] == rest;
  }

  /** A line that is removed without taking the next one with it. */
  predicate Goes(r: Rules, line: string) {
    r.names(line) && r.opens(line).None? && !Continues(line)
  }

  /** An empty line, a note and a removed line, then one more. */
  lemma BlockKept(r: Rules, note: string, gone: string, last: string)
    requires Harmless(r, "") && Harmless(r, note) && Goes(r, gone) && (Harmless(r, last) || Goes(r, last))
    ensures Kept(r, ["", note, gone, last], NORMAL) == ["", note] + if Harmless(r, last) then [last] else []
    ensures FinalMode(r, ["", note, gone, last], NORMAL) == NORMAL
  {
    if Harmless(r, last) {
      KeepsOne(r, last, []);
    } else {
      DropsOne(r, last, []);
    }
    assert [last] + [] == [last] && [gone] + [last] == [gone, last];
    DropsOne(r, gone, [last]);
    assert [note] + [gone, last] == [note, gone, last];
    KeepsOne(r, note, [gone, last]);
    assert [""] + [note, gone, last] == ["", note, gone, last];
    KeepsOne(r, "", [note, gone, last]);
  }

  lemma {:induction false} KeptOfConcat(r: Rules, a: seq<string>, b: seq<string>, m: Mode)
    ensures Kept(r, a + b, m) == Kept(r, a, m) + Kept(r, b, FinalMode(r, a, m))
    ensures FinalMode(r, a + b, m) == FinalMode(r, b, FinalMode(r, a, m))
  {
    if a == [] {
      assert a + b == b;
    } else {
      assert (a + b)[1..] == a[1..] + b;
      KeptOfConcat(r, a[1..], b, Step(r, m, a[0]));
    }
  }

  lemma {:induction false} TrimTailIsPrefix(lines: seq<string>)
    ensures TrimTail(lines) <= lines
    ensures TrimTail(lines) != [] ==> TrimSpace(TrimTail(lines)[|TrimTail(lines)|-1]) != ""
  {
    if lines != [] && TrimSpace(lines[|lines|-1]) == "" {
      TrimTailIsPrefix(lines[..|lines|-1]);
    }
  }

  predicate EndsInText(lines: seq<string>) {
    lines != [] && TrimSpace(lines[|lines|-1]) != ""
  }

  lemma CleanedEndsInText(r: Rules, lines: seq<string>)
    ensures Cleaned(r, lines) == [] || EndsInText(Cleaned(r, lines))
  {
    TrimTailIsPrefix(Kept(r, lines, NORMAL));
  }

  lemma {:induction false} TrimTailPast(a: seq<string>, b: seq<string>)
    requires EndsInText(a)
    ensures TrimTail(a + b) == a + TrimTail(b)
  {
    if b == [] {
      assert a + b == a;
    } else {
      assert (a + b)[..|a + b|-1] == a + b[..|b|-1] && (a + b)[|a + b|-1] == b[|b|-1];
      TrimTailPast(a, b[..|b|-1]);
    }
  }

  /** Clean lines in front come back whole, whatever follows them. */
  lemma CleanedPast(r: Rules, clean: seq<string>, rest: seq<string>)
    requires EndsInText(clean) && forall i :: 0 <= i < |clean| ==> Harmless(r, clean[i])
    ensures Cleaned(r, clean + rest) == clean + Cleaned(r, rest)
  {
    KeptLeavesHarmless(r, clean);
    KeptOfConcat(r, clean, rest, NORMAL);
    TrimTailPast(clean, Kept(r, rest, NORMAL));
  }

  // ------------------------------------------------------------------ lines between clean ones

  /** Nothing in `lines` closes any block. */
  ghost predicate ClosesNothing(lines: seq<string>) {
    forall l, block :: l in lines ==> !Closes(l, block)
  }

  lemma {:induction false} OpenBlockSwallows(r: Rules, lines: seq<string>, m: Mode)
    requires m.block.Some? && ClosesNothing(lines)
    ensures Kept(r, lines, m) == []
  {
    if lines == [] {
    } else {
      assert !Closes(lines[0], m.block.value);
      OpenBlockSwallows(r, lines[1..], m);
    }
  }

  /** After a line that neither continues nor closes a block the walk is back to normal or inside a block. */
  lemma SettledMode(r: Rules, lines: seq<string>)
    requires lines != [] && !Continues(lines[|lines|-1]) && ClosesNothing([lines[|lines|-1]])
    ensures var m := FinalMode(r, lines, NORMAL); m == NORMAL || m.block.Some?
  {
    var front, last := lines[..|lines|-1], lines[|lines|-1];
    assert lines == front + [last] && last in [last];
    KeptOfConcat(r, front, [last], NORMAL);
    assert FinalMode(r, [last], FinalMode(r, front, NORMAL)) == Step(r, FinalMode(r, front, NORMAL), last);
  }

  /** Nothing is kept exactly when every line is reached in a skip mode or is removed itself. */
  lemma {:induction false} KeptNothingIff(r: Rules, lines: seq<string>, m: Mode)
    ensures Kept(r, lines, m) == [] <==>
              forall i :: 0 <= i < |lines| ==> !Keeps(r, FinalMode(r, lines[..i], m), lines[i])
  {
    if lines == [] {
    } else {
      var rest, m' := lines[1..], Step(r, m, lines[0]);
      KeptNothingIff(r, rest, m');
      assert lines[..0] == [];
      forall i | 0 <= i < |rest| ensures FinalMode(r, rest[..i], m') == FinalMode(r, lines[..i+1], m) {
        assert lines[..i+1][1..] == rest[..i];
      }
      if forall i :: 0 <= i < |lines| ==> !Keeps(r, FinalMode(r, lines[..i], m), lines[i]) {
        forall i | 0 <= i < |rest| ensures !Keeps(r, FinalMode(r, rest[..i], m'), rest[i]) {
          assert lines[i+1] == rest[i];
        }
      } else if !Keeps(r, m, lines[0]) {
        var i :| 0 <= i < |lines| && Keeps(r, FinalMode(r, lines[..i], m), lines[i]);
        assert rest[i-1] == lines[i];
      }
    }
  }

  /** What stays of a walk over `pieces` and the clean tail `rest` behind them. */
  function Between(kept: seq<string>, m: Mode, rest: seq<string>): seq<string> {
    if m == NORMAL then kept + rest else TrimTail(kept)
  }

  lemma TailStays(kept: seq<string>, rest: seq<string>)
    requires EndsInText(rest)
    ensures TrimTail(kept + (rest + [""])) == kept + rest
  {
    assert kept + (rest + [""]) == (kept + rest) + [""];
    assert TrimSpace("") == "" && [""][..0] == [];
    assert TrimTail([""]) == [];
    TrimTailPast(kept + rest, [""]);
  }

  lemma PiecesThenTail(r: Rules, pieces: seq<string>, tail: seq<string>, rest: seq<string>)
    requires Kept(r, tail + [""], NORMAL) == rest + [""] && EndsInText(rest) && ClosesNothing(tail + [""])
    requires FinalMode(r, pieces, NORMAL) == NORMAL || FinalMode(r, pieces, NORMAL).block.Some?
    ensures Cleaned(r, pieces + (tail + [""])) == Between(Kept(r, pieces, NORMAL), FinalMode(r, pieces, NORMAL), rest)
  {
    var kept, m := Kept(r, pieces, NORMAL), FinalMode(r, pieces, NORMAL);
    KeptOfConcat(r, pieces, tail + [""], NORMAL);
    if m == NORMAL {
      TailStays(kept, rest);
    } else {
      OpenBlockSwallows(r, tail + [""], m);
      assert kept + [] == kept;
    }
  }

  /** Any lines between clean ones and a tail: what stays of them, and whether they swallow the tail. */
  lemma CleanedBetween(r: Rules, head: seq<string>, pieces: seq<string>, tail: seq<string>, rest: seq<string>)
    requires EndsInText(head) && forall i :: 0 <= i < |head| ==> Harmless(r, head[i])
    requires Kept(r, tail + [""], NORMAL) == rest + [""] && EndsInText(rest) && ClosesNothing(tail + [""])
    requires FinalMode(r, pieces, NORMAL) == NORMAL || FinalMode(r, pieces, NORMAL).block.Some?
    ensures Cleaned(r, head + (pieces + (tail + [""])))
            == head + Between(Kept(r, pieces, NORMAL), FinalMode(r, pieces, NORMAL), rest)
  {
    CleanedPast(r, head, pieces + (tail + [""]));
    PiecesThenTail(r, pieces, tail, rest);
  }

  /** A clean tail with an empty line behind it. */
  lemma EmptyBehind(r: Rules, lines: seq<string>, kept: seq<string>)
    requires Kept(r, lines, NORMAL) == kept && FinalMode(r, lines, NORMAL) == NORMAL && Harmless(r, "")
    ensures Kept(r, lines + [""], NORMAL) == kept + [""]
  {
    KeptOfConcat(r, lines, [""], NORMAL);
    KeepsOne(r, "", []);
    assert [""] + [] == [""];
  }

  /** Lines already clean, with an empty one behind, come back without it. */
  lemma CleanStaysClean(r: Rules, lines: seq<string>)
    requires forall i :: 0 <= i < |lines| ==> Harmless(r, lines[i])
    requires EndsInText(lines) && Harmless(r, "")
    ensures Cleaned(r, lines + [""]) == lines
  {
    assert TrimTail(lines) == lines;
    KeptLeavesHarmless(r, lines + [""]);
    assert (lines + [""])[..|lines|] == lines;
    assert TrimSpace("") == "";
  }

  // ------------------------------------------------------------------ nothing invented, nothing reordered

  /** `xs` is obtained from `ys` by leaving elements out. */
  predicate Subsequence(xs: seq<string>, ys: seq<string>) {
    if xs == [] then true
    else if ys == [] then false
    else (xs[0] == ys[0] && Subsequence(xs[1..], ys[1..])) || Subsequence(xs, ys[1..])
  }

  function TrimAll(lines: seq<string>): (r: seq<string>)
    ensures |r| == |lines|
  {
    if lines == [] then [] else [TrimRight(IsBlank, lines[0])] + TrimAll(lines[1..])
  }

  lemma {:induction false} SubsequencePrefix(xs: seq<string>, n: nat, ys: seq<string>)
    requires n <= |xs| && Subsequence(xs, ys)
    ensures Subsequence(xs[..n], ys)
    decreases |ys|
  {
    if n > 0 {
      if xs[0] == ys[0] && Subsequence(xs[1..], ys[1..]) {
        assert xs[..n][1..] == xs[1..][..n-1];
        SubsequencePrefix(xs[1..], n - 1, ys[1..]);
      } else {
        SubsequencePrefix(xs, n, ys[1..]);
      }
    }
  }

  lemma {:induction false} KeptIsSubsequence(r: Rules, lines: seq<string>, m: Mode)
    ensures Subsequence(Kept(r, lines, m), TrimAll(lines))
  {
    if lines == [] {
    } else {
      KeptIsSubsequence(r, lines[1..], Step(r, m, lines[0]));
      assert TrimAll(lines)[1..] == TrimAll(lines[1..]);
      if Keeps(r, m, lines[0]) {
        assert Kept(r, lines, m)[1..] == Kept(r, lines[1..], Step(r, m, lines[0]));
      } else {
        assert Kept(r, lines, m) == Kept(r, lines[1..], Step(r, m, lines[0]));
      }
    }
  }
}
