/** Decoding the profile column of the node list (`decodeConfig`): standard base64, section 4 of RFC 4648. */
module Base64 {
  import opened Prelude
  import opened Text

  type Byte = b: int | 0 <= b < 256
  type Sextet = v: int | 0 <= v < 64

  function CharOf(v: Sextet): char {
    if v < 26 then 'A' + v as char
    else if v < 52 then 'a' + (v - 26) as char
    else if v < 62 then '0' + (v - 52) as char
    else if v == 62 then '+'
    else '/'
  }

  function ValueOf(c: char): Option<Sextet> {
    if 'A' <= c <= 'Z' then Some((c - 'A') as int)
    else if 'a' <= c <= 'z' then Some((c - 'a') as int + 26)
    else if '0' <= c <= '9' then Some((c - '0') as int + 52)
    else if c == '+' then Some(62)
    else if c == '/' then Some(63)
    else None
  }

  lemma ValueOfCharOf(v: Sextet)
    ensures ValueOf(CharOf(v)) == Some(v)
    ensures CharOf(v) != '=' && !IsSpace(CharOf(v))
  {
  }

  /** The encoder of the standard, with padding; the reference the decoder is measured against. */
  function Encode(bytes: seq<Byte>): string {
    if bytes == [] then ""
    else if |bytes| == 1 then
      [CharOf(bytes[0] / 4), CharOf(bytes[0] % 4 * 16), '=', '=']
    else if |bytes| == 2 then
      [CharOf(bytes[0] / 4), CharOf(bytes[0] % 4 * 16 + bytes[1] / 16), CharOf(bytes[1] % 16 * 4), '=']
    else
      [CharOf(bytes[0] / 4), CharOf(bytes[0] % 4 * 16 + bytes[1] / 16),
       CharOf(bytes[1] % 16 * 4 + bytes[2] / 64), CharOf(bytes[2] % 64)] + Encode(bytes[3..])
  }

  /** Three bytes become the four digits of the 24-bit number they spell, most significant first. */
  lemma QuantumIsBigEndian(b0: Byte, b1: Byte, b2: Byte, v: seq<int>)
    requires |v| == 4 && forall i :: 0 <= i < 4 ==> 0 <= v[i] < 64
    requires Encode([b0, b1, b2]) == [CharOf(v[0]), CharOf(v[1]), CharOf(v[2]), CharOf(v[3])]
    ensures 0x10000 * b0 as int + 0x100 * b1 as int + b2 as int == 0x40000 * v[0] + 0x1000 * v[1] + 0x40 * v[2] + v[3]
  {
    var s: seq<int> := [b0 / 4, b0 % 4 * 16 + b1 / 16, b1 % 16 * 4 + b2 / 64, b2 % 64];
    EncodeThree(b0, b1, b2, []);
    assert [b0, b1, b2] + [] == [b0, b1, b2];
    forall i | 0 <= i < 4 ensures v[i] == s[i] {
      assert Encode([b0, b1, b2])[i] == CharOf(s[i]);
      ValueOfCharOf(v[i]);
      ValueOfCharOf(s[i]);
    }
  }

  /** Test vectors of section 10 of RFC 4648. */
  lemma StandardVectors()
    ensures Encode([0x66]) == "Zg==" && Encode([0x66, 0x6f]) == "Zm8=" && Encode([0x66, 0x6f, 0x6f]) == "Zm9v"
  {
    EncodeThree(0x66, 0x6f, 0x6f, []);
  }

  /** Groups of three bytes are encoded one after the other. */
  lemma EncodeInGroups(b0: Byte, b1: Byte, b2: Byte, rest: seq<Byte>)
    ensures Encode([b0, b1, b2] + rest) == Encode([b0, b1, b2]) + Encode(rest)
  {
    EncodeThree(b0, b1, b2, rest);
    EncodeThree(b0, b1, b2, []);
    assert [b0, b1, b2] + [] == [b0, b1, b2];
  }

  /** The last two characters of the alphabet. */
  lemma SignVector()
    ensures Encode([0xfb, 0xef, 0xff]) == "++//"
  {
    EncodeThree(0xfb, 0xef, 0xff, []);
  }

  /**
   base64.StdEncoding.DecodeString on text without line breaks: whole quanta of four characters, padding only
   in the last one, left-over low bits ignored.
   */
  function Decode(s: string): Result<seq<Byte>, ()> {
    if s == "" then Ok([])
    else if |s| < 4 || ValueOf(s[0]).None? || ValueOf(s[1]).None? then Err(())
    else
      var a, b := ValueOf(s[0]).value, ValueOf(s[1]).value;
      var first: Byte := a * 4 + b / 16;
      if s[2] == '=' then if s[3] == '=' && |s| == 4 then Ok([first]) else Err(())
      else if ValueOf(s[2]).None? then Err(())
      else
        var c := ValueOf(s[2]).value;
        var second: Byte := b % 16 * 16 + c / 4;
        if s[3] == '=' then if |s| == 4 then Ok([first, second]) else Err(())
        else if ValueOf(s[3]).None? then Err(())
        else
          var third: Byte := c % 4 * 64 + ValueOf(s[3]).value;
          match Decode(s[4..])
          case Ok(rest) => Ok([first, second, third] + rest)
          case Err(e) => Err(e)
  }

  function Repad(compact: string): string {
    if |compact| % 4 != 0 then compact + seq(4 - |compact| % 4, i => '=') else compact
  }

  const BYTE_ORDER_MARK: seq<Byte> := [0xEF, 0xBB, 0xBF]

  function TrimBom(bytes: seq<Byte>): seq<Byte> {
    if BYTE_ORDER_MARK <= bytes then bytes[3..] else bytes
  }

  function DecodeConfig(encoded: string): Result<seq<Byte>, ()> {
    var compact := Concat(Fields(encoded));
    if compact == "" then Err(())
    else match Decode(Repad(compact))
      case Ok(raw) => Ok(TrimBom(raw))
      case Err(e) => Err(e)
  }

  /** How many padding characters the encoding of `n` bytes ends in. */
  function Padding(n: nat): nat {
    if n == 0 then 0 else if n == 1 then 2 else if n == 2 then 1 else Padding(n - 3)
  }

  function Quanta(n: nat): nat {
    if n == 0 then 0 else if n <= 2 then 1 else 1 + Quanta(n - 3)
  }

  lemma {:induction false} EncodeLength(bytes: seq<Byte>)
    ensures |Encode(bytes)| == 4 * Quanta(|bytes|)
    ensures Padding(|bytes|) <= 2 && Padding(|bytes|) <= |Encode(bytes)|
  {
    if |bytes| >= 3 {
      EncodeLength(bytes[3..]);
    }
  }

  lemma {:induction false} EncodePadding(bytes: seq<Byte>, i: nat)
    requires i < |Encode(bytes)| && |Encode(bytes)| - Padding(|bytes|) <= i
    ensures Encode(bytes)[i] == '='
  {
    EncodeLength(bytes);
    if |bytes| >= 3 {
      EncodeLength(bytes[3..]);
      assert Encode(bytes)[4..] == Encode(bytes[3..]);
      EncodePadding(bytes[3..], i - 4);
    }
  }

  lemma Quantum(b0: Byte, b1: Byte, b2: Byte)
    ensures var s0, s1 := b0 / 4, b0 % 4 * 16 + b1 / 16;
            var s2, s3 := b1 % 16 * 4 + b2 / 64, b2 % 64;
            && 0 <= s0 < 64 && 0 <= s1 < 64 && 0 <= s2 < 64 && 0 <= s3 < 64
            && s0 * 4 + s1 / 16 == b0 && s1 % 16 * 16 + s2 / 4 == b1 && s2 % 4 * 64 + s3 == b2
  {
  }

  lemma DecodeQuantum(s: string, a: Sextet, b: Sextet, c: Sextet, d: Sextet)
    requires |s| >= 4 && s[2] != '=' && s[3] != '=' && Decode(s[4..]).Ok?
    requires ValueOf(s[0]) == Some(a) && ValueOf(s[1]) == Some(b) && ValueOf(s[2]) == Some(c) && ValueOf(s[3]) == Some(d)
    ensures Decode(s) == Ok([a * 4 + b / 16, b % 16 * 16 + c / 4, c % 4 * 64 + d] + Decode(s[4..]).value)
  {
  }

  lemma DecodeThree(b0: Byte, b1: Byte, b2: Byte, tail: string)
    requires Decode(tail).Ok?
    ensures Decode([CharOf(b0 / 4), CharOf(b0 % 4 * 16 + b1 / 16),
                    CharOf(b1 % 16 * 4 + b2 / 64), CharOf(b2 % 64)] + tail)
            == Ok([b0, b1, b2] + Decode(tail).value)
  {
    Quantum(b0, b1, b2);
    var a, b, c, d := b0 / 4, b0 % 4 * 16 + b1 / 16, b1 % 16 * 4 + b2 / 64, b2 % 64;
    ValueOfCharOf(a);
    ValueOfCharOf(b);
    ValueOfCharOf(c);
    ValueOfCharOf(d);
    var s := [CharOf(a), CharOf(b), CharOf(c), CharOf(d)] + tail;
    assert s[4..] == tail;
    DecodeQuantum(s, a, b, c, d);
  }

  lemma DecodeTwo(b0: Byte, b1: Byte)
    ensures Decode(Encode([b0, b1])) == Ok([b0, b1])
  {
    Quantum(b0, b1, 0);
    var a, b, c := b0 / 4, b0 % 4 * 16 + b1 / 16, b1 % 16 * 4;
    ValueOfCharOf(a);
    ValueOfCharOf(b);
    ValueOfCharOf(c);
    assert Encode([b0, b1]) == [CharOf(a), CharOf(b), CharOf(c), '='];
  }

  lemma DecodeOne(b0: Byte)
    ensures Decode(Encode([b0])) == Ok([b0])
  {
    Quantum(b0, 0, 0);
    ValueOfCharOf(b0 / 4);
    ValueOfCharOf(b0 % 4 * 16);
    assert Encode([b0]) == [CharOf(b0 / 4), CharOf(b0 % 4 * 16), '=', '='];
  }

  lemma EncodeThree(b0: Byte, b1: Byte, b2: Byte, rest: seq<Byte>)
    ensures Encode([b0, b1, b2] + rest)
            == [CharOf(b0 / 4), CharOf(b0 % 4 * 16 + b1 / 16), CharOf(b1 % 16 * 4 + b2 / 64), CharOf(b2 % 64)]
               + Encode(rest)
  {
    assert ([b0, b1, b2] + rest)[3..] == rest;
  }

  /** The program's decoder inverts the standard's encoder. */
  lemma {:induction false} DecodeOfEncode(bytes: seq<Byte>)
    ensures Decode(Encode(bytes)) == Ok(bytes)
  {
    if |bytes| == 1 {
      DecodeOne(bytes[0]);
      assert bytes == [bytes[0]];
    } else if |bytes| == 2 {
      DecodeTwo(bytes[0], bytes[1]);
      assert bytes == [bytes[0], bytes[1]];
    } else if |bytes| >= 3 {
      assert bytes == [bytes[0], bytes[1], bytes[2]] + bytes[3..];
      DecodeOfEncode(bytes[3..]);
      EncodeThree(bytes[0], bytes[1], bytes[2], bytes[3..]);
      DecodeThree(bytes[0], bytes[1], bytes[2], Encode(bytes[3..]));
    }
  }

  lemma RepadRestores(full: string, lost: nat, q: nat)
    requires |full| == 4 * q && lost <= 2 && lost <= |full|
    requires forall i :: |full| - lost <= i < |full| ==> full[i] == '='
    ensures Repad(full[..|full| - lost]) == full
  {
    var compact := full[..|full| - lost];
    if lost > 0 {
      assert |compact| == 4 * (q - 1) + (4 - lost);
      assert |compact| % 4 == 4 - lost;
    } else {
      assert |compact| % 4 == 0;
    }
  }

  lemma BomIff(bytes: seq<Byte>)
    ensures TrimBom(bytes)
            == if |bytes| >= 3 && bytes[0] == 0xEF && bytes[1] == 0xBB && bytes[2] == 0xBF then bytes[3..] else bytes
  {
    assert BYTE_ORDER_MARK == [0xEF, 0xBB, 0xBF];
    if |bytes| >= 3 {
      assert bytes[..3] == [bytes[0], bytes[1], bytes[2]];
    }
  }

  lemma DecodeConfigTrims(bytes: seq<Byte>, lost: nat, encoded: string)
    requires bytes != [] && lost <= Padding(|bytes|) <= |Encode(bytes)|
    requires Strip(encoded) == Encode(bytes)[..|Encode(bytes)| - lost]
    ensures DecodeConfig(encoded) == Ok(TrimBom(bytes))
  {
    var full := Encode(bytes);
    EncodeLength(bytes);
    forall i | |full| - lost <= i < |full| ensures full[i] == '=' {
      EncodePadding(bytes, i);
    }
    RepadRestores(full, lost, Quanta(|bytes|));
    ConcatFields(encoded);
    DecodeOfEncode(bytes);
  }

  /**
   A base64 encoding with white space inserted anywhere and any number of trailing padding characters lost
   is decoded to the original bytes, less one leading byte-order mark.
   */
  lemma DecodeConfigInvertsEncode(bytes: seq<Byte>, lost: nat, encoded: string)
    requires bytes != [] && lost <= Padding(|bytes|) <= |Encode(bytes)|
    requires Strip(encoded) == Encode(bytes)[..|Encode(bytes)| - lost]
    ensures DecodeConfig(encoded)
            == Ok(if |bytes| >= 3 && bytes[0] == 0xEF && bytes[1] == 0xBB && bytes[2] == 0xBF then bytes[3..] else bytes)
  {
    DecodeConfigTrims(bytes, lost, encoded);
    BomIff(bytes);
  }

  /** White space alone, or a length no padding can repair, is an error. */
  lemma DecodeConfigRejects(encoded: string)
    ensures Strip(encoded) == "" ==> DecodeConfig(encoded).Err?
    ensures |Strip(encoded)| % 4 == 1 && '=' !in Strip(encoded) ==> DecodeConfig(encoded).Err?
  {
    ConcatFields(encoded);
    var compact := Strip(encoded);
    if |compact| % 4 == 1 && '=' !in compact {
      DecodeRejectsTail(compact, Repad(compact));
    }
  }

  lemma {:induction false} DecodeRejectsTail(compact: string, s: string)
    requires |compact| % 4 == 1 && '=' !in compact && s == compact + "==="
    ensures Decode(s).Err?
    decreases |s|
  {
    if |s| == 4 {
      assert s[1] == '=';
    } else {
      assert s[4..] == compact[4..] + "===";
      DecodeRejectsTail(compact[4..], s[4..]);
      assert compact[2] in compact && compact[3] in compact && s[2] == compact[2] && s[3] == compact[3];
    }
  }
}
