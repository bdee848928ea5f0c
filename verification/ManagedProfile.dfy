/** The lines the manager adds to a profile (`RenderOpenVPNConfig`), said of their words. */
module ManagedProfile {
  import opened Prelude
  import opened Text
  import opened Sanitizer
  import opened Renderer
  import opened Remote
  import EndpointText

  // ------------------------------------------------------------------ options

  /** Which options are accepted, and which complaint comes first. */
  lemma AcceptedIff(o: Options)
    ensures Managed(o).Ok? <==>
              && o.authPath != ""
              && (o.useProxy ==> o.proxyHost.Ip? && o.proxyHost.loopback && 1 <= o.proxyPort <= 65535)
              && forall i :: 0 <= i < |o.bypassIPs| ==>
                   var ip := o.bypassIPs[i]; ip.Ip? && ip.globalUnicast && !ip.private && !ip.loopback
    ensures Managed(o) == Err(AuthPathRequired) <==> o.authPath == ""
    ensures Managed(o) == Err(ProxyNotLoopback) <==>
              o.authPath != "" && o.useProxy && (o.proxyHost.NotIp? || !o.proxyHost.loopback)
    ensures Managed(o) == Err(ProxyPortRange) <==>
              && o.authPath != "" && o.useProxy && o.proxyHost.Ip? && o.proxyHost.loopback
              && (o.proxyPort < 1 || o.proxyPort > 65535)
  {
    forall i | 0 <= i < |o.bypassIPs|
      ensures Bypassable(o.bypassIPs[i]) <==>
                var ip := o.bypassIPs[i]; ip.Ip? && ip.globalUnicast && !ip.private && !ip.loopback
    {
    }
  }

  /** How many lines are added, and that the ones asked for are among them. */
  lemma LinesAdded(o: Options)
    requires Managed(o).Ok?
    ensures |Managed(o).value|
            == 4 + (if o.useProxy then 4 else 0) + (if o.goos == "windows" then 4 else 0) + |o.bypassIPs|
    ensures AuthLine(o) in Managed(o).value
    ensures o.useProxy ==> ProxyLine(o) in Managed(o).value && "socks-proxy-retry" in Managed(o).value
    ensures o.goos == "windows" ==> "block-outside-dns" in Managed(o).value && "register-dns" in Managed(o).value
  {
    RoutesCount(o.bypassIPs);
    var lines := ManagedLines(o);
    assert lines[2] == AuthLine(o);
    var k := 4 + |ProxyBlock(o)|;
    assert o.useProxy ==> lines[6] == ProxyLine(o) && lines[7] == "socks-proxy-retry";
    assert o.goos == "windows" ==> lines[k+2] == "block-outside-dns" && lines[k+3] == "register-dns";
  }

  // ------------------------------------------------------------------ routes

  lemma {:induction false} RoutesCount(ips: seq<Ip>)
    requires forall i :: 0 <= i < |ips| ==> ips[i].Ip?
    ensures |Routes(ips)| == |ips| && forall i :: 0 <= i < |ips| ==> Routes(ips)[i] == RouteLine(ips[i])
  {
    if ips == [] {
    } else {
      RoutesCount(ips[..|ips|-1]);
    }
  }

  lemma FourWords(a: string, b: string, c: string, d: string)
    requires Word(a) && Word(b) && Word(c) && Word(d)
    ensures Fields(a + " " + (b + " " + (c + " " + d))) == [a, b, c, d]
  {
    FieldsOfWord(a, b + " " + (c + " " + d));
    ThreeWords(b, c, d);
  }

  lemma Regroup(word: string, text: string, gateway: string)
    ensures word + (" " + text + (" " + gateway)) == word + " " + (text + " " + gateway)
  {
  }

  lemma RouteText(text: string)
    ensures "route" + (" " + text + " 255.255.255.255 net_gateway")
            == "route" + " " + (text + " " + ("255.255.255.255" + " " + "net_gateway"))
  {
    assert " 255.255.255.255 net_gateway" == " " + ("255.255.255.255" + " " + "net_gateway");
    Regroup("route", text, "255.255.255.255" + " " + "net_gateway");
  }

  lemma RouteText6(text: string)
    ensures "route-ipv6" + (" " + text + "/128 net_gateway") == "route-ipv6" + " " + (text + "/128" + " " + "net_gateway")
  {
    assert "/128 net_gateway" == "/128" + (" " + "net_gateway");
    assert " " + text + ("/128" + (" " + "net_gateway")) == " " + (text + "/128") + (" " + "net_gateway");
    Regroup("route-ipv6", text + "/128", "net_gateway");
  }

  lemma RouteWordsAreWords()
    ensures Word("route") && Word("255.255.255.255") && Word("net_gateway") && Word("route-ipv6")
  {
  }

  lemma SuffixedWord(text: string)
    requires Word(text)
    ensures Word(text + "/128")
  {
    assert forall i :: 0 <= i < |"/128"| ==> !IsSpace("/128"[i]);
  }

  /** Every bypass address gets its own route, in order, past the tunnel and to that address alone. */
  lemma RouteOf(o: Options, i: nat)
    requires Managed(o).Ok? && i < |o.bypassIPs| && Word(o.bypassIPs[i].text)
    ensures var lines, ip := Managed(o).value, o.bypassIPs[i];
            && |lines| >= |o.bypassIPs|
            && Fields(lines[|lines| - |o.bypassIPs| + i])
               == if ip.v4 then ["route", ip.text, "255.255.255.255", "net_gateway"]
                  else ["route-ipv6", ip.text + "/128", "net_gateway"]
  {
    var lines, ip := Managed(o).value, o.bypassIPs[i];
    LinesAdded(o);
    RoutesCount(o.bypassIPs);
    assert lines[|lines| - |o.bypassIPs| + i] == RouteLine(ip);
    RouteWords(ip);
  }

  lemma RouteWords(ip: Ip)
    requires ip.Ip? && Word(ip.text)
    ensures Fields(RouteLine(ip)) == if ip.v4 then ["route", ip.text, "255.255.255.255", "net_gateway"]
                                     else ["route-ipv6", ip.text + "/128", "net_gateway"]
  {
    RouteWordsAreWords();
    if ip.v4 {
      RouteText(ip.text);
      FourWords("route", ip.text, "255.255.255.255", "net_gateway");
    } else {
      RouteText6(ip.text);
      SuffixedWord(ip.text);
      ThreeWords("route-ipv6", ip.text + "/128", "net_gateway");
    }
  }

  // ------------------------------------------------------------------ the proxy

  lemma DecimalIsWord(n: nat)
    ensures Word(Decimal(n))
  {
    DecimalIsDigits(n);
    assert forall c: char :: '0' <= c <= '9' ==> !IsSpace(c);
  }

  lemma SocksProxyWords(host: string, port: string)
    requires Word(host) && Word(port)
    ensures Fields("socks-proxy" + (" " + host + " " + port)) == ["socks-proxy", host, port]
  {
    assert Word("socks-proxy");
    assert " " + host + " " + port == " " + host + (" " + port);
    Regroup("socks-proxy", host, port);
    ThreeWords("socks-proxy", host, port);
  }

  /** The proxy line names the proxy's host and, read as a number, its port. */
  lemma ProxyWords(o: Options)
    requires Managed(o).Ok? && o.useProxy && Word(o.proxyHost.text)
    ensures var words := Fields(ProxyLine(o));
            |words| == 3 && words[0] == "socks-proxy" && words[1] == o.proxyHost.text && Atoi(words[2]) == o.proxyPort
  {
    var port := Decimal(o.proxyPort);
    DecimalIsWord(o.proxyPort);
    SocksProxyWords(o.proxyHost.text, port);
    EndpointText.AtoiReads(o.proxyPort, port);
  }

  // ------------------------------------------------------------------ the path of the credentials

  /** What a reader that takes a backslash and a quote for a quote makes of an escaped path. */
  function Unescape(s: string): string {
    if s == "" then ""
    else if |s| >= 2 && s[0] == '\\' && s[1] == '"' then "\"" + Unescape(s[2..])
    else [s[0]] + Unescape(s[1..])
  }

  lemma {:induction false} QuotesAreEscaped(path: string, i: nat)
    requires i < |EscapeQuotes(path)| && EscapeQuotes(path)[i] == '"'
    ensures i > 0 && EscapeQuotes(path)[i-1] == '\\'
  {
    var rest := EscapeQuotes(path[1..]);
    if path[0] == '"' {
      assert EscapeQuotes(path) == "\\\"" + rest;
      if i >= 2 {
        QuotesAreEscaped(path[1..], i - 2);
      }
    } else {
      assert EscapeQuotes(path) == [path[0]] + rest;
      QuotesAreEscaped(path[1..], i - 1);
    }
  }

  lemma StartsUnquoted(path: string)
    ensures EscapeQuotes(path) == "" || EscapeQuotes(path)[0] != '"'
  {
    if path != "" {
      assert EscapeQuotes(path)[0] == if path[0] == '"' then '\\' else path[0];
    }
  }

  lemma {:induction false} UnescapeInverts(path: string)
    ensures Unescape(EscapeQuotes(path)) == path
  {
    if path == "" {
    } else {
      var rest := EscapeQuotes(path[1..]);
      UnescapeInverts(path[1..]);
      if path[0] == '"' {
        var s := "\\\"" + rest;
        assert s[0] == '\\' && s[1] == '"' && s[2..] == rest;
      } else {
        var s := [path[0]] + rest;
        StartsUnquoted(path[1..]);
        assert s[1..] == rest && (rest != "" ==> s[1] == rest[0]);
      }
      assert path == [path[0]] + path[1..];
    }
  }

  lemma SameMiddle(head: string, a: string, b: string, tail: string)
    requires head + a + tail == head + b + tail
    ensures a == b
  {
    var s := head + a + tail;
    assert a == s[|head|..|s| - |tail|] && b == s[|head|..|s| - |tail|];
  }

  lemma AuthLineText(path: string)
    ensures "auth-user-pass" + (" \"" + path + "\"") == "auth-user-pass \"" + path + "\""
  {
    assert "auth-user-pass \"" == "auth-user-pass" + " \"";
  }

  /** The credentials line quotes the path: it ends the quotation nowhere early, and read back it is the path. */
  lemma AuthPathIsQuoted(o: Options, quoted: string)
    requires AuthLine(o) == "auth-user-pass \"" + quoted + "\""
    ensures Unescape(quoted) == o.authPath
    ensures forall i :: 0 <= i < |quoted| && quoted[i] == '"' ==> i > 0 && quoted[i-1] == '\\'
  {
    AuthLineText(EscapeQuotes(o.authPath));
    SameMiddle("auth-user-pass \"", quoted, EscapeQuotes(o.authPath), "\"");
    UnescapeInverts(o.authPath);
    forall i | 0 <= i < |quoted| && quoted[i] == '"' ensures i > 0 && quoted[i-1] == '\\' {
      QuotesAreEscaped(o.authPath, i);
    }
  }

  lemma AuthLineIsQuoted(o: Options)
    ensures exists quoted :: AuthLine(o) == "auth-user-pass \"" + quoted + "\""
  {
    AuthLineText(EscapeQuotes(o.authPath));
  }
}
