/** How one line of a profile is read (`parseRemote`, `normalizeProtocol`), said of its words. */
module EndpointText {
  import opened Prelude
  import opened Text
  import opened Renderer
  import opened Remote
  import SanitizedText

  // ------------------------------------------------------------------ protocols

  /** The letters of `name` stand at `i`, in any case. */
  ghost predicate Spelled(s: string, i: int, name: string) {
    0 <= i && i + |name| <= |s| && forall k :: 0 <= k < |name| ==> Lower(s[i + k]) == name[k]
  }

  ghost predicate Stands(s: string, i: int, part: string) {
    0 <= i && i + |part| <= |s| && forall k :: 0 <= k < |part| ==> s[i + k] == part[k]
  }

  lemma {:induction false} ContainsAt(s: string, part: string) returns (i: int)
    requires Contains(s, part)
    ensures Stands(s, i, part)
  {
    if part <= s {
      i := 0;
    } else {
      var j := ContainsAt(s[1..], part);
      i := j + 1;
      forall k | 0 <= k < |part| ensures s[i + k] == part[k] {
        assert s[1..][j + k] == part[k];
      }
    }
  }

  lemma {:induction false} StandsIsContained(s: string, i: int, part: string)
    requires Stands(s, i, part)
    ensures Contains(s, part)
    decreases i
  {
    if i == 0 {
      assert forall k :: 0 <= k < |part| ==> s[0 + k] == part[k];
      assert part == s[..|part|];
    } else {
      forall k | 0 <= k < |part| ensures s[1..][i - 1 + k] == part[k] {
        assert s[i + k] == part[k];
      }
      StandsIsContained(s[1..], i - 1, part);
    }
  }

  lemma {:induction false} TrimRightParts(s: string) returns (k: nat)
    ensures k <= |s| && TrimRight(IsSpace, s) == s[..k] && forall i :: k <= i < |s| ==> IsSpace(s[i])
  {
    if s != "" && IsSpace(s[|s|-1]) {
      k := TrimRightParts(s[..|s|-1]);
      assert s[..|s|-1][..k] == s[..k];
    } else {
      k := |s|;
      assert s[..k] == s;
    }
  }

  lemma {:induction false} TrimLeftParts(s: string) returns (k: nat)
    ensures k <= |s| && TrimLeft(IsSpace, s) == s[k..] && (forall i :: 0 <= i < k ==> IsSpace(s[i]))
    ensures k < |s| ==> !IsSpace(s[k])
  {
    if s != "" && IsSpace(s[0]) {
      var j := TrimLeftParts(s[1..]);
      k := j + 1;
      assert s[1..][j..] == s[k..];
      assert forall i :: 1 <= i < k ==> s[i] == s[1..][i-1];
    } else {
      k := 0;
      assert s[k..] == s;
    }
  }

  /** Trimming cuts out a middle part that leaves nothing but white space. */
  lemma TrimSpaceParts(s: string) returns (a: nat, b: nat)
    ensures a <= b <= |s| && TrimSpace(s) == s[a..b]
    ensures forall i :: 0 <= i < a || b <= i < |s| ==> IsSpace(s[i])
    ensures a < b ==> !IsSpace(s[a])
  {
    b := TrimRightParts(s);
    a := TrimLeftParts(s[..b]);
    assert s[..b][a..] == s[a..b];
  }

  lemma SpelledIsUnbroken(s: string, i: int, name: string, k: int)
    requires Word(name) && Spelled(s, i, name) && 0 <= k < |name|
    ensures !IsSpace(s[i + k])
  {
    assert Lower(s[i + k]) == name[k];
    SanitizedText.LowerSpace(s[i + k]);
  }

  lemma SpelledInside(s: string, a: nat, b: nat, i: int, name: string)
    requires a <= b <= |s| && 0 <= i && i + |name| <= b - a
    ensures Spelled(s, a + i, name) <==> Stands(ToLower(s[a..b]), i, name)
  {
    forall k | 0 <= k < |name| ensures (ToLower(s[a..b])[i + k] == name[k]) == (Lower(s[a + i + k]) == name[k]) {
      assert s[a..b][i + k] == s[a + i + k];
    }
  }

  lemma SpelledWithin(s: string, a: nat, b: nat, name: string) returns (i: int)
    requires a <= b <= |s| && Contains(ToLower(s[a..b]), name)
    ensures Spelled(s, i, name)
  {
    var j := ContainsAt(ToLower(s[a..b]), name);
    SpelledInside(s, a, b, j, name);
    i := a + j;
  }

  lemma ContainedIsSpelled(s: string, name: string) returns (i: int)
    requires Contains(ToLower(TrimSpace(s)), name)
    ensures Spelled(s, i, name)
  {
    var a, b := TrimSpaceParts(s);
    i := SpelledWithin(s, a, b, name);
  }

  lemma SpelledIsContained(s: string, i: int, name: string)
    requires Word(name) && Spelled(s, i, name)
    ensures Contains(ToLower(TrimSpace(s)), name)
  {
    var a, b := TrimSpaceParts(s);
    SpelledIsUnbroken(s, i, name, 0);
    SpelledIsUnbroken(s, i, name, |name| - 1);
    assert a <= i && i + |name| <= b;
    SpelledInside(s, a, b, i - a, name);
    StandsIsContained(ToLower(TrimSpace(s)), i - a, name);
  }

  /** A name without white space is in the trimmed, lower-cased text exactly when it is spelled somewhere in the text. */
  lemma SpelledIff(s: string, name: string)
    requires Word(name)
    ensures Contains(ToLower(TrimSpace(s)), name) <==> exists i :: Spelled(s, i, name)
  {
    if Contains(ToLower(TrimSpace(s)), name) {
      var i := ContainedIsSpelled(s, name);
    }
    if i :| Spelled(s, i, name) {
      SpelledIsContained(s, i, name);
    }
  }

  /** The protocol of a word: TCP when it says so anywhere and in any case, else UDP when it says that. */
  lemma ProtocolIs(value: string)
    ensures NormalizeProtocol(value) == "tcp" <==> exists i :: Spelled(value, i, "tcp")
    ensures NormalizeProtocol(value) == "udp"
            <==> (forall i :: !Spelled(value, i, "tcp")) && exists i :: Spelled(value, i, "udp")
    ensures NormalizeProtocol(value) in {"tcp", "udp", "unknown"}
  {
    SpelledIff(value, "tcp");
    SpelledIff(value, "udp");
    ThreeProtocols();
  }

  lemma ThreeProtocols()
    ensures "tcp" != "udp" && "tcp" != "unknown" && "udp" != "unknown"
  {
    assert "tcp"[0] == 't' && "udp"[1] == 'd' && "unknown"[0] == 'u' && "unknown"[1] == 'n';
  }

  // ------------------------------------------------------------------ numbers

  lemma {:induction false} ValueOfDecimal(n: nat)
    ensures Digits(Decimal(n)) && DigitsValue(Decimal(n)) == n
  {
    DecimalIsDigits(n);
    if n < 10 {
      assert Decimal(n)[..0] == "";
    } else {
      ValueOfDecimal(n / 10);
      var s := Decimal(n);
      assert s[..|s|-1] == Decimal(n / 10);
    }
  }

  lemma SignedDigits(d: string)
    requires Digits(d)
    ensures Atoi(d) == Min(DigitsValue(d), 0x7fff_ffff_ffff_ffff) && Atoi("+" + d) == Atoi(d)
    ensures Atoi("-" + d) == Max(0 - DigitsValue(d), -0x8000_0000_0000_0000)
  {
    assert ("+" + d)[1..] == d && ("-" + d)[1..] == d;
  }

  /** A number printed in decimal is read back, up to the ends of 64 bits, where reading stops. */
  lemma AtoiReads(n: nat, d: string)
    requires d == Decimal(n)
    ensures n < 0x8000_0000_0000_0000 ==> Atoi(d) == n && Atoi("+" + d) == n && Atoi("-" + d) == 0 - n
    ensures n >= 0x8000_0000_0000_0000 ==>
              Atoi(d) == Atoi("+" + d) == 0x7fff_ffff_ffff_ffff && Atoi("-" + d) == -0x8000_0000_0000_0000
  {
    ValueOfDecimal(n);
    SignedDigits(d);
  }

  /** A text with anything but digits behind an optional sign is no number and counts as zero. */
  lemma AtoiRejects(s: string, i: nat)
    requires i < |s| && !('0' <= s[i] <= '9') && (i > 0 || (s[0] != '-' && s[0] != '+'))
    ensures Atoi(s) == 0
  {
    if s[0] == '-' || s[0] == '+' {
      assert s[1..][i-1] == s[i];
    }
  }

  // ------------------------------------------------------------------ statements

  /** The first word of a trimmed line begins the line. */
  lemma FirstWordBegins(line: string)
    requires Fields(line) != []
    ensures TrimSpace(line) != "" && Fields(TrimSpace(line)) == Fields(line)
    ensures Fields(line)[0] != "" && TrimSpace(line)[0] == Fields(line)[0][0]
  {
    FieldsTrimSpace(line);
    var a, b := TrimSpaceParts(line);
    FirstOfFields(TrimSpace(line));
  }

  predicate Says(word: string, name: string) {
    ToLower(word) == name || ToLower(word) == "--" + name
  }

  lemma StatementOf(line: string, name: string)
    requires Fields(line) != [] && Says(Fields(line)[0], name) && SanitizedText.PlainName(name)
    ensures EffectOf(line) == EffectOfFields(Fields(line))
    ensures TrimPrefix(ToLower(Fields(line)[0]), "--") == name
  {
    FirstWordBegins(line);
    SanitizedText.NameOfWord(Fields(line)[0], name);
    assert "#"[0] == '#' && ";"[0] == ';';
  }

  lemma TwoStatements()
    ensures "proto" != "remote" && SanitizedText.PlainName("proto") && SanitizedText.PlainName("remote")
  {
    assert "proto"[0] == 'p' && "remote"[0] == 'r';
  }

  /** A remote line names its second word as host, its third as port and its fourth, if any, as protocol. */
  lemma RemoteStatement(line: string)
    requires |Fields(line)| >= 3 && Says(Fields(line)[0], "remote")
    ensures EffectOf(line).Names? && EffectOf(line).host == Unquote(Fields(line)[1])
    ensures EffectOf(line).port == Atoi(Fields(line)[2])
    ensures |Fields(line)| == 3 ==> EffectOf(line).override == None
    ensures |Fields(line)| >= 4 ==> EffectOf(line).override == Some(NormalizeProtocol(Fields(line)[3]))
  {
    TwoStatements();
    StatementOf(line, "remote");
  }

  lemma ProtoStatement(line: string)
    requires |Fields(line)| >= 2 && Says(Fields(line)[0], "proto")
    ensures EffectOf(line) == Proto(NormalizeProtocol(Fields(line)[1]))
  {
    TwoStatements();
    StatementOf(line, "proto");
  }

  /** Comments, other directives and statements with too few words say nothing about the endpoint. */
  lemma OtherLines(line: string)
    requires || Fields(line) == [] || TrimSpace(line) == "" || TrimSpace(line)[0] in {'#', ';'}
             || (!Says(Fields(line)[0], "remote") && !Says(Fields(line)[0], "proto"))
             || |Fields(line)| == 1 || (|Fields(line)| == 2 && !Says(Fields(line)[0], "proto"))
    ensures EffectOf(line) == Nothing
  {
    FieldsTrimSpace(line);
    assert "#"[0] == '#' && ";"[0] == ';' && |"#"| == 1 && |";"| == 1;
    if Fields(line) != [] {
      var name := TrimPrefix(ToLower(Fields(line)[0]), "--");
      NamedBySays(Fields(line)[0], name);
      TwoStatements();
    }
  }

  lemma NamedBySays(word: string, name: string)
    requires TrimPrefix(ToLower(word), "--") == name
    ensures Says(word, name)
  {
    var w := ToLower(word);
    if "--" <= w {
      assert w == "--" + w[2..];
    }
  }

  lemma UnquoteCuts(left: string, host: string, right: string)
    requires forall i :: 0 <= i < |left| ==> left[i] == '"' || left[i] == '\''
    requires forall i :: 0 <= i < |right| ==> right[i] == '"' || right[i] == '\''
    requires host != "" && host[0] !in {'"', '\''} && host[|host|-1] !in {'"', '\''}
    ensures Unquote(left + host + right) == host
  {
    var front := left + host;
    SanitizedText.TrimRightPast(IsQuote, front, right);
    AllDropped(right);
    assert front + "" == front;
    LeftDropped(left, host);
  }

  lemma {:induction false} AllDropped(s: string)
    requires forall i :: 0 <= i < |s| ==> IsQuote(s[i])
    ensures TrimRight(IsQuote, s) == ""
  {
    if s == "" {
    } else {
      AllDropped(s[..|s|-1]);
    }
  }

  lemma {:induction false} LeftDropped(left: string, rest: string)
    requires (forall i :: 0 <= i < |left| ==> IsQuote(left[i])) && rest != "" && !IsQuote(rest[0])
    ensures TrimLeft(IsQuote, left + rest) == rest
  {
    if left == "" {
      assert left + rest == rest;
    } else {
      assert (left + rest)[1..] == left[1..] + rest;
      LeftDropped(left[1..], rest);
    }
  }

  // ------------------------------------------------------------------ the whole profile

  /** The last proto line, if there is one, decides the protocol. */
  predicate LastProto(lines: seq<string>, k: int) {
    && 0 <= k < |lines| && EffectOf(lines[k]).Proto?
    && forall j :: k < j < |lines| ==> EffectOf(lines[j]).Nothing?
  }

  /** The first remote line decides the host and port; the protocol is its own or that of the last proto line before it. */
  lemma {:induction false} FirstRemoteDecides(before: seq<string>, line: string, after: seq<string>, protocol: string)
    requires (forall i :: 0 <= i < |before| ==> !EffectOf(before[i]).Names?) && EffectOf(line).Names?
    ensures var e := Parse(before + ([line] + after), protocol);
            && e.host == EffectOf(line).host && e.port == EffectOf(line).port
            && (EffectOf(line).override.Some? ==> e.protocol == EffectOf(line).override.value)
            && (EffectOf(line).override.None? ==>
                  && (forall k :: LastProto(before, k) ==> e.protocol == EffectOf(before[k]).protocol)
                  && ((forall i :: 0 <= i < |before| ==> EffectOf(before[i]).Nothing?) ==> e.protocol == protocol))
  {
    if before == [] {
      assert before + ([line] + after) == [line] + after;
      ParseHead(line, after, protocol);
    } else {
      var head, rest := before[0], before[1..];
      assert before + ([line] + after) == [head] + (rest + ([line] + after));
      ParseHead(head, rest + ([line] + after), protocol);
      var e := EffectOf(head);
      FirstRemoteDecides(rest, line, after, if e.Proto? then e.protocol else protocol);
      forall k | LastProto(before, k) && k > 0 ensures LastProto(rest, k - 1) {
        assert forall j :: k - 1 < j < |rest| ==> rest[j] == before[j+1];
      }
      assert LastProto(before, 0) ==> forall i :: 0 <= i < |rest| ==> rest[i] == before[i+1];
    }
  }
}
