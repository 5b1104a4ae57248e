/**
 The Transport header of RTSP (RFC 2326, section 12.39): parsing what a client asks for, and the
 form in which it is answered.  Parsing undoes formatting for every pair of ports or channels.
 */
module TransportHeader {
  import opened Common
  import opened Text

  datatype TransportMode =
    | UdpUnicast(clientRtpPort: nat, clientRtcpPort: nat)
    | TcpInterleaved(rtpChannel: nat, rtcpChannel: nat)

  datatype Error =
    | MissingAvp
    | MissingInterleaved
    | InvalidChannel
    | MissingClientPort
    | MalformedClientPort
    | InvalidPort
    | Overflow // the second number is left out and the first is the largest there is

  const U8_MAX: nat := 255
  const U16_MAX: nat := 65535

  predicate InRange(mode: TransportMode) {
    match mode
    case UdpUnicast(rtp, rtcp) => rtp <= U16_MAX && rtcp <= U16_MAX
    case TcpInterleaved(rtp, rtcp) => rtp <= U8_MAX && rtcp <= U8_MAX
  }

  // ----- Strings -----

  predicate StartsWith(s: string, prefix: string) {
    OccursAt(s, prefix, 0)
  }

  /** Where `c` first stands, or the end. */
  function IndexOf(s: string, c: char): (n: nat)
    ensures n <= |s| && (n < |s| ==> s[n] == c)
  {
    if s == [] || s[0] == c then 0 else 1 + IndexOf(s[1..], c)
  }

  /** `str::split`: never empty. */
  function Split(s: string, c: char): (parts: seq<string>)
    ensures |parts| > 0
  {
    var n := IndexOf(s, c);
    if n == |s| then [s] else [s[..n]] + Split(s[n + 1..], c)
  }

  predicate IsDigit(c: char) {
    '0' <= c <= '9'
  }

  function DigitChar(d: nat): (c: char)
    requires d < 10
    ensures IsDigit(c)
  {
    ('0' as int + d) as char
  }

  function DigitValue(c: char): nat
    requires IsDigit(c)
  {
    c as int - '0' as int
  }

  predicate AllDigits(s: string) {
    forall k :: 0 <= k < |s| ==> IsDigit(s[k])
  }

  function Value(s: string): nat
    requires AllDigits(s)
  {
    if s == [] then 0 else Value(s[..|s| - 1]) * 10 + DigitValue(s[|s| - 1])
  }

  /** `str::parse` for an unsigned type: digits behind at most one plus sign, within the type. */
  function ParseNumber(s: string, max: nat): (r: Option<nat>)
    ensures r.Some? ==> r.value <= max
  {
    var digits := if s != [] && s[0] == '+' then s[1..] else s;
    if digits == [] || !AllDigits(digits) || Value(digits) > max then None else Some(Value(digits))
  }

  /** The decimal notation of a number. */
  function Decimal(n: nat): (s: string)
    ensures s != []
  {
    if n < 10 then [DigitChar(n)] else Decimal(n / 10) + [DigitChar(n % 10)]
  }

  // ----- The header -----

  /** Two numbers behind a dash, or one and its successor. */
  function ParsePair(s: string, max: nat, invalid: Error): Result<(nat, nat), Error> {
    var parts := Split(s, '-');
    var first := ParseNumber(parts[0], max);
    if first.None? then Err(invalid)
    else if |parts| > 1 then
      var second := ParseNumber(parts[1], max);
      if second.None? then Err(invalid) else Ok((first.value, second.value))
    else if first.value == max then Err(Overflow)
    else Ok((first.value, first.value + 1))
  }

  /** The first part that, trimmed and in lower case, starts with `prefix`. */
  function FindPart(parts: seq<string>, prefix: string): Option<string> {
    if parts == [] then None
    else if StartsWith(ToLower(Trim(parts[0])), prefix) then Some(parts[0])
    else FindPart(parts[1..], prefix)
  }

  function ParseInterleaved(lower: string): Result<TransportMode, Error> {
    var part := FindPart(Split(lower, ';'), "interleaved=");
    if part.None? || |Trim(part.value)| < 12 then Err(MissingInterleaved)
    else
      var pair := ParsePair(Trim(part.value)[12..], U8_MAX, InvalidChannel);
      if pair.Err? then Err(pair.error) else Ok(TcpInterleaved(pair.value.0, pair.value.1))
  }

  function ParseUdp(value: string): Result<TransportMode, Error> {
    var part := FindPart(Split(value, ';'), "client_port=");
    if part.None? then Err(MissingClientPort)
    else
      var fields := Split(part.value, '=');
      if |fields| < 2 then Err(MalformedClientPort)
      else
        var pair := ParsePair(Trim(fields[1]), U16_MAX, InvalidPort);
        if pair.Err? then Err(pair.error) else Ok(UdpUnicast(pair.value.0, pair.value.1))
  }

  function Parse(value: string): (r: Result<TransportMode, Error>)
    ensures r.Ok? ==> InRange(r.value)
  {
    var lower := ToLower(value);
    if !Contains(lower, "rtp/avp") then Err(MissingAvp)
    else if Contains(lower, "rtp/avp/tcp") || Contains(lower, "interleaved=") then ParseInterleaved(lower)
    else ParseUdp(value)
  }

  function FormatResponse(mode: TransportMode, serverRtp: nat, serverRtcp: nat): string {
    match mode
    case UdpUnicast(rtp, rtcp) =>
      Header("RTP/AVP", Ports("client_port=", rtp, rtcp) + (";" + Ports("server_port=", serverRtp, serverRtcp)))
    case TcpInterleaved(rtp, rtcp) =>
      Header("RTP/AVP/TCP", Ports("interleaved=", rtp, rtcp))
  }

  function Header(protocol: string, parameters: string): string {
    protocol + (";" + ("unicast" + (";" + parameters)))
  }

  function Ports(name: string, a: nat, b: nat): string {
    name + (Decimal(a) + ("-" + Decimal(b)))
  }

  // ----- Numbers round-trip -----

  lemma {:induction false} DecimalRoundTrip(n: nat)
    ensures AllDigits(Decimal(n)) && Value(Decimal(n)) == n
  {
    var s := Decimal(n);
    if n >= 10 {
      DecimalRoundTrip(n / 10);
      assert s[..|s| - 1] == Decimal(n / 10);
    } else {
      assert s[..|s| - 1] == "";
    }
  }

  lemma NumberRoundTrip(n: nat, max: nat)
    ensures ParseNumber(Decimal(n), max) == if n <= max then Some(n) else None
  {
    hide Decimal;
    DecimalRoundTrip(n);
  }

  lemma {:induction false} IndexBehind(a: string, c: char, rest: string)
    requires c !in a
    ensures IndexOf(a + ([c] + rest), c) == |a|
  {
    if a != [] {
      assert (a + ([c] + rest))[1..] == a[1..] + ([c] + rest);
      IndexBehind(a[1..], c, rest);
    }
  }

  lemma SplitFirst(a: string, c: char, rest: string)
    requires c !in a
    ensures Split(a + ([c] + rest), c) == [a] + Split(rest, c)
  {
    var s := a + ([c] + rest);
    IndexBehind(a, c, rest);
    assert s[..|a|] == a && s[|a| + 1..] == rest;
  }

  lemma SplitLast(a: string, c: char)
    requires c !in a
    ensures Split(a, c) == [a]
  {
  }

  lemma PairRoundTrip(a: nat, b: nat, max: nat, invalid: Error)
    requires a <= max && b <= max
    ensures ParsePair(Decimal(a) + ("-" + Decimal(b)), max, invalid) == Ok((a, b))
  {
    hide Decimal, Split, ParseNumber;
    DecimalRoundTrip(a);
    DecimalRoundTrip(b);
    SplitFirst(Decimal(a), '-', Decimal(b));
    SplitLast(Decimal(b), '-');
    NumberRoundTrip(a, max);
    NumberRoundTrip(b, max);
  }

  /** One number stands for itself and its successor, which the largest number does not have. */
  lemma SingleNumber(a: nat, max: nat, invalid: Error)
    ensures ParsePair(Decimal(a), max, invalid)
            == if a < max then Ok((a, a + 1)) else if a == max then Err(Overflow) else Err(invalid)
  {
    hide Decimal, Split, ParseNumber;
    DecimalRoundTrip(a);
    SplitLast(Decimal(a), '-');
    NumberRoundTrip(a, max);
  }

  // ----- Parts of the formatted header -----

  /** Characters of header parameters: no white space, no separators, no capitals. */
  predicate IsPlain(s: string) {
    forall k :: 0 <= k < |s| ==> !IsWhite(s[k]) && s[k] != ';' && !('A' <= s[k] <= 'Z')
  }

  lemma PlainTrim(s: string)
    requires IsPlain(s)
    ensures Trim(s) == s
  {
  }

  lemma {:induction false} PlainLower(s: string)
    requires IsPlain(s)
    ensures ToLower(s) == s
  {
    if s != [] {
      assert IsPlain(s[1..]);
      PlainLower(s[1..]);
    }
  }

  lemma DigitsPlain(s: string)
    requires AllDigits(s)
    ensures IsPlain(s)
  {
  }

  lemma PortsPlain(name: string, a: nat, b: nat)
    requires IsPlain(name)
    ensures IsPlain(Ports(name, a, b))
  {
    hide Decimal, IsWhite;
    DecimalRoundTrip(a);
    DecimalRoundTrip(b);
    DigitsPlain(Decimal(a));
    DigitsPlain(Decimal(b));
    DashIsPlain();
    PlainAppend("-", Decimal(b));
    PlainAppend(Decimal(a), "-" + Decimal(b));
    PlainAppend(name, Decimal(a) + ("-" + Decimal(b)));
  }

  lemma DashIsPlain()
    ensures IsPlain("-")
  {
  }

  lemma PlainAppend(a: string, b: string)
    requires IsPlain(a) && IsPlain(b)
    ensures IsPlain(a + b)
  {
  }

  lemma {:induction false} LowerAppend(a: string, b: string)
    ensures ToLower(a + b) == ToLower(a) + ToLower(b)
  {
    hide LowerChar;
    if a == [] {
      assert a + b == b;
    } else {
      assert (a + b)[1..] == a[1..] + b;
      LowerAppend(a[1..], b);
    }
  }

  lemma SpecialStart(name: string, rest: string)
    ensures StartsWith(name + rest, name)
  {
  }

  // ----- TCP -----

  lemma HeaderLower(protocol: string, parameters: string)
    ensures ToLower(Header(protocol, parameters)) == Header(ToLower(protocol), ToLower(parameters))
  {
    hide ToLower;
    var rest := ";" + ("unicast" + (";" + parameters));
    LowerAppend(protocol, rest);
    LowerAppend(";", "unicast" + (";" + parameters));
    LowerAppend("unicast", ";" + parameters);
    LowerAppend(";", parameters);
    LowerLetters(";");
    LowerLetters("unicast");
  }

  lemma LowerTcp()
    ensures ToLower("RTP/AVP/TCP") == "rtp/avp/tcp"
  {
    hide ToLower;
    assert "RTP/AVP/TCP" == "RTP/AVP" + "/TCP";
    LowerAppend("RTP/AVP", "/TCP");
    LowerAvp();
    LowerFour();
  }

  lemma LowerAvp()
    ensures ToLower("RTP/AVP") == "rtp/avp"
  {
    assert "RTP/AVP" == "RTP" + "/AVP";
    LowerAppend("RTP", "/AVP");
    assert ToLower("RTP") == "rtp" by { assert "RTP"[1..] == "TP" && "TP"[1..] == "P" && "P"[1..] == ""; }
    assert ToLower("/AVP") == "/avp" by {
      assert "/AVP"[1..] == "AVP" && "AVP"[1..] == "VP" && "VP"[1..] == "P" && "P"[1..] == "";
    }
  }

  lemma LowerFour()
    ensures ToLower("/TCP") == "/tcp"
  {
  }

  lemma {:induction false} LowerLetters(s: string)
    requires forall k :: 0 <= k < |s| ==> !('A' <= s[k] <= 'Z')
    ensures ToLower(s) == s
  {
    if s != [] {
      LowerLetters(s[1..]);
    }
  }

  lemma ContainsAt(s: string, needle: string, k: nat)
    requires OccursAt(s, needle, k)
    ensures Contains(s, needle)
  {
    FoundFirst(s, needle, 0, k);
  }

  /** The parts in front, which no parameter name matches. */
  lemma FrontParts(first: string, ports: seq<string>, prefix: string)
    requires first == "rtp/avp/tcp" || first == "RTP/AVP"
    requires prefix == "interleaved=" || prefix == "client_port="
    ensures FindPart([first, "unicast"] + ports, prefix) == FindPart(ports, prefix)
  {
    var all := [first, "unicast"] + ports;
    assert all[1..] == ["unicast"] + ports && all[1..][1..] == ports;
    ShortPart(first, prefix);
    ShortPart("unicast", prefix);
  }

  /** A part shorter than the prefix, white space or not, does not start with it. */
  lemma ShortPart(part: string, prefix: string)
    requires |part| < |prefix|
    ensures !StartsWith(ToLower(Trim(part)), prefix)
  {
    hide IsWhite, ToLower;
    TrimShortens(part);
  }

  lemma TrimShortens(s: string)
    ensures |Trim(s)| <= |s|
  {
    hide IsWhite;
    var j := TrimEndMeans(s);
    var i := TrimStartMeans(s[..j]);
  }

  lemma PortsFound(name: string, ports: string, tail: seq<string>)
    requires IsPlain(name) && IsPlain(name + ports)
    ensures FindPart([name + ports] + tail, name) == Some(name + ports)
  {
    hide IsPlain, Trim, ToLower;
    PlainTrim(name + ports);
    PlainLower(name + ports);
    SpecialStart(name, ports);
    assert ([name + ports] + tail)[0] == name + ports;
  }

  lemma NamesPlain()
    ensures IsPlain("interleaved=") && IsPlain("client_port=") && IsPlain("server_port=")
  {
  }

  lemma TcpRoundTrip(rtp: nat, rtcp: nat)
    requires rtp <= U8_MAX && rtcp <= U8_MAX
    ensures Parse(Header("RTP/AVP/TCP", Ports("interleaved=", rtp, rtcp))) == Ok(TcpInterleaved(rtp, rtcp))
  {
    hide Decimal, Parse, Header, ParsePair, IsPlain;
    PairPlain(rtp, rtcp);
    TcpRequestRead(Decimal(rtp) + ("-" + Decimal(rtcp)));
    PairRoundTrip(rtp, rtcp, U8_MAX, InvalidChannel);
  }

  lemma TcpMarked(ports: string)
    ensures var lower := Header("rtp/avp/tcp", ports); Contains(lower, "rtp/avp") && Contains(lower, "rtp/avp/tcp")
  {
  }

  lemma NoSemicolon(s: string)
    requires IsPlain(s)
    ensures ';' !in s
  {
  }

  /** The two parts in front of the parameters. */
  lemma SplitHeader(protocol: string, parameters: string)
    requires ';' !in protocol
    ensures Split(Header(protocol, parameters), ';') == [protocol, "unicast"] + Split(parameters, ';')
  {
    hide Split;
    SplitFirst(protocol, ';', "unicast" + (";" + parameters));
    SplitFirst("unicast", ';', parameters);
    assert [protocol] + (["unicast"] + Split(parameters, ';')) == [protocol, "unicast"] + Split(parameters, ';');
  }

  // ----- UDP -----

  /** Characters that may stand in a formatted UDP header behind its first seven. */
  predicate NoMark(s: string) {
    forall k :: 0 <= k < |s| ==> s[k] != '/' && s[k] != 'd' && s[k] != 'D'
  }

  lemma NoMarkAppend(a: string, b: string)
    requires NoMark(a) && NoMark(b)
    ensures NoMark(a + b)
  {
  }

  lemma PortsNoMark(name: string, a: nat, b: nat)
    requires NoMark(name)
    ensures NoMark(Ports(name, a, b))
  {
    hide Decimal;
    DecimalRoundTrip(a);
    DecimalRoundTrip(b);
    assert NoMark(Decimal(a)) && NoMark(Decimal(b));
    NoMarkAppend("-", Decimal(b));
    NoMarkAppend(Decimal(a), "-" + Decimal(b));
    NoMarkAppend(name, Decimal(a) + ("-" + Decimal(b)));
  }

  /** Such a header is not taken for an interleaved one. */
  lemma NotInterleaved(rest: string)
    requires NoMark(rest)
    ensures var lower := "rtp/avp" + rest;
            Contains(lower, "rtp/avp") && !Contains(lower, "rtp/avp/tcp") && !Contains(lower, "interleaved=")
  {
    hide FindFrom;
    var lower := "rtp/avp" + rest;
    assert lower[0..7] == "rtp/avp";
    ContainsAt(lower, "rtp/avp", 0);
    assert forall i :: 7 <= i < |lower| ==> lower[i] != '/' && lower[i] != 'd';
    var tcp := Find(lower, "rtp/avp/tcp");
    if tcp.Some? {
      NeedleChar(lower, "rtp/avp/tcp", tcp.value, 7);
    }
    var inter := Find(lower, "interleaved=");
    if inter.Some? {
      NeedleChar(lower, "interleaved=", inter.value, 10);
    }
  }

  lemma NeedleChar(s: string, needle: string, k: nat, i: nat)
    requires OccursAt(s, needle, k) && i < |needle|
    ensures s[k + i] == needle[i]
  {
  }

  lemma {:induction false} LowerNoMark(s: string)
    requires NoMark(s)
    ensures NoMark(ToLower(s))
  {
    if s != [] {
      assert NoMark(s[1..]);
      LowerNoMark(s[1..]);
    }
  }

  lemma UdpRoundTrip(rtp: nat, rtcp: nat, serverRtp: nat, serverRtcp: nat)
    requires rtp <= U16_MAX && rtcp <= U16_MAX
    ensures Parse(FormatResponse(UdpUnicast(rtp, rtcp), serverRtp, serverRtcp)) == Ok(UdpUnicast(rtp, rtcp))
  {
    hide Decimal, ToLower, Trim, FindFrom, Split, IsPlain, ParsePair, FindPart, Contains, NoMark, Header;
    var pair := Decimal(rtp) + ("-" + Decimal(rtcp));
    var client, server := Ports("client_port=", rtp, rtcp), Ports("server_port=", serverRtp, serverRtcp);
    var value := FormatResponse(UdpUnicast(rtp, rtcp), serverRtp, serverRtcp);
    NamesPlain();
    PortsPlain("client_port=", rtp, rtcp);
    PortsPlain("server_port=", serverRtp, serverRtcp);
    UdpText(rtp, rtcp, serverRtp, serverRtcp);
    SplitHeader("RTP/AVP", client + (";" + server));
    SplitParameters(client, server);
    FrontParts("RTP/AVP", [client, server], "client_port=");
    assert [client] + [server] == [client, server];
    PortsFound("client_port=", pair, [server]);
    SplitField(pair, rtp, rtcp);
    PairPlain(rtp, rtcp);
    PlainTrim(pair);
    PairRoundTrip(rtp, rtcp, U16_MAX, InvalidPort);
  }

  /** Parameters without those characters make no header of the other form. */
  lemma RequestIsUdp(client: string)
    requires NoMark(client)
    ensures var lower := ToLower(Header("RTP/AVP", client));
            Contains(lower, "rtp/avp") && !Contains(lower, "rtp/avp/tcp") && !Contains(lower, "interleaved=")
  {
    hide ToLower, FindFrom, Contains;
    var rest := ";" + ("unicast" + (";" + client));
    NoMarkAppend(";", client);
    NoMarkAppend("unicast", ";" + client);
    NoMarkAppend(";", "unicast" + (";" + client));
    LowerAppend("RTP/AVP", rest);
    LowerAvp();
    LowerNoMark(rest);
    NotInterleaved(ToLower(rest));
  }

  lemma UdpText(rtp: nat, rtcp: nat, serverRtp: nat, serverRtcp: nat)
    ensures var lower := ToLower(FormatResponse(UdpUnicast(rtp, rtcp), serverRtp, serverRtcp));
            Contains(lower, "rtp/avp") && !Contains(lower, "rtp/avp/tcp") && !Contains(lower, "interleaved=")
  {
    hide ToLower, FindFrom, Contains, Ports;
    var client, server := Ports("client_port=", rtp, rtcp), Ports("server_port=", serverRtp, serverRtcp);
    PortsNoMark("client_port=", rtp, rtcp);
    PortsNoMark("server_port=", serverRtp, serverRtcp);
    NoMarkAppend(";", server);
    NoMarkAppend(client, ";" + server);
    RequestIsUdp(client + (";" + server));
  }

  lemma SplitParameters(client: string, server: string)
    requires IsPlain(client) && IsPlain(server)
    ensures Split(client + (";" + server), ';') == [client, server]
  {
    hide IsWhite, Split;
    SplitFirst(client, ';', server);
    SplitLast(server, ';');
  }

  lemma SplitField(pair: string, rtp: nat, rtcp: nat)
    requires pair == Decimal(rtp) + ("-" + Decimal(rtcp))
    ensures Split("client_port=" + pair, '=') == ["client_port"] + [pair]
  {
    hide Decimal, Split;
    DecimalRoundTrip(rtp);
    DecimalRoundTrip(rtcp);
    assert "client_port=" + pair == "client_port" + (['='] + pair);
    SplitFirst("client_port", '=', pair);
    SplitLast(pair, '=');
  }

  lemma PairPlain(rtp: nat, rtcp: nat)
    ensures IsPlain(Decimal(rtp) + ("-" + Decimal(rtcp)))
  {
    hide Decimal;
    PortsPlain("", rtp, rtcp);
    assert Ports("", rtp, rtcp) == Decimal(rtp) + ("-" + Decimal(rtcp));
  }

  /** What the server answers, a client's parser reads back: every pair of ports, every pair of channels. */
  lemma {:induction false} HeaderRoundTrip(mode: TransportMode, serverRtp: nat, serverRtcp: nat)
    requires InRange(mode)
    ensures Parse(FormatResponse(mode, serverRtp, serverRtcp)) == Ok(mode)
  {
    hide Parse;
    match mode {
      case UdpUnicast(rtp, rtcp) => UdpRoundTrip(rtp, rtcp, serverRtp, serverRtcp);
      case TcpInterleaved(rtp, rtcp) => TcpRoundTrip(rtp, rtcp);
    }
  }

  /** The text of the header, piece by piece. */
  lemma HeaderText(a: nat, b: nat, c: nat, d: nat)
    ensures FormatResponse(UdpUnicast(a, b), c, d)
            == "RTP/AVP" + ";" + "unicast" + ";" + "client_port=" + Decimal(a) + "-" + Decimal(b)
               + (";" + ("server_port=" + Decimal(c) + "-" + Decimal(d)))
    ensures FormatResponse(TcpInterleaved(a, b), c, d)
            == "RTP/AVP/TCP" + ";" + "unicast" + ";" + "interleaved=" + Decimal(a) + "-" + Decimal(b)
  {
    hide Decimal;
    Regroup("RTP/AVP/TCP", "unicast", "interleaved=", Decimal(a), Decimal(b), "");
    Regroup("RTP/AVP", "unicast", "client_port=", Decimal(a), Decimal(b),
            ";" + Ports("server_port=", c, d));
    RegroupPorts("server_port=", Decimal(c), Decimal(d));
    RegroupPorts("interleaved=", Decimal(a), Decimal(b));
    assert Decimal(b) + "" == Decimal(b);
  }

  lemma Regroup(p: string, u: string, name: string, a: string, b: string, rest: string)
    ensures p + (";" + (u + (";" + ((name + (a + ("-" + b))) + rest))))
            == p + ";" + u + ";" + name + a + "-" + b + rest
    ensures p + (";" + (u + (";" + (name + (a + ("-" + b)))))) == p + ";" + u + ";" + name + a + "-" + b
  {
  }

  lemma RegroupPorts(name: string, a: string, b: string)
    ensures name + (a + ("-" + b)) == name + a + "-" + b
  {
  }

  /** Numbers are written in tens, without leading zeros. */
  lemma DecimalWitness()
    ensures Decimal(0) == "0" && Decimal(7) == "7" && Decimal(10) == "10" && Decimal(5004) == "5004"
  {
    assert Decimal(50) == "50" && Decimal(500) == "500";
  }

  /** A client finds the ports of the server in the answer. */
  lemma ServerPortsRead(rtp: nat, rtcp: nat, serverRtp: nat, serverRtcp: nat)
    requires serverRtp <= U16_MAX && serverRtcp <= U16_MAX
    ensures var part := FindPart(Split(FormatResponse(UdpUnicast(rtp, rtcp), serverRtp, serverRtcp), ';'),
                                 "server_port=");
            && part.Some? && |part.value| >= 12
            && ParsePair(part.value[12..], U16_MAX, InvalidPort) == Ok((serverRtp, serverRtcp))
  {
    hide Decimal, ToLower, Trim, Split, IsPlain, ParsePair, FindPart, Header, StartsWith;
    var pair := Decimal(rtp) + ("-" + Decimal(rtcp));
    var client, server := Ports("client_port=", rtp, rtcp), Ports("server_port=", serverRtp, serverRtcp);
    NamesPlain();
    PortsPlain("client_port=", rtp, rtcp);
    PortsPlain("server_port=", serverRtp, serverRtcp);
    SplitHeader("RTP/AVP", client + (";" + server));
    SplitParameters(client, server);
    PlainTrim(client);
    PlainLower(client);
    OtherName(pair);
    assert client == "client_port=" + pair;
    ShortPart("RTP/AVP", "server_port=");
    ShortPart("unicast", "server_port=");
    var parts := ["RTP/AVP", "unicast"] + [client, server];
    assert parts == ["RTP/AVP"] + ["unicast", client, server];
    assert ["unicast", client, server] == ["unicast"] + [client, server] && [client, server] == [client] + [server];
    PassedOver(["unicast", client, server], "RTP/AVP", "server_port=");
    PassedOver([client, server], "unicast", "server_port=");
    PassedOver([server], client, "server_port=");
    PortsFound("server_port=", Decimal(serverRtp) + ("-" + Decimal(serverRtcp)), []);
    assert [server] + [] == [server];
    assert server[12..] == Decimal(serverRtp) + ("-" + Decimal(serverRtcp));
    PairRoundTrip(serverRtp, serverRtcp, U16_MAX, InvalidPort);
  }

  lemma PassedOver(parts: seq<string>, first: string, prefix: string)
    requires !StartsWith(ToLower(Trim(first)), prefix)
    ensures FindPart([first] + parts, prefix) == FindPart(parts, prefix)
  {
    hide Trim, ToLower, StartsWith;
    assert ([first] + parts)[1..] == parts;
  }

  lemma OtherName(ports: string)
    ensures !StartsWith("client_port=" + ports, "server_port=")
  {
    var s := "client_port=" + ports;
    assert s[0..12][0] == s[0] == 'c' && "server_port="[0] == 's';
  }

  /** Which form is read: interleaved as soon as either of its marks stands anywhere, whatever the case. */
  lemma FormChosen(value: string)
    ensures var lower, r := ToLower(value), Parse(value);
            && (r == Err(MissingAvp) <==> Absent(lower, "rtp/avp"))
            && (r.Ok? && r.value.TcpInterleaved? ==> !Absent(lower, "rtp/avp/tcp") || !Absent(lower, "interleaved="))
            && (r.Ok? && r.value.UdpUnicast? ==> Absent(lower, "rtp/avp/tcp") && Absent(lower, "interleaved="))
  {
    hide ToLower, Contains, Absent, FindPart, Split, Trim, ParsePair;
    var lower := ToLower(value);
    NotContained(lower, "rtp/avp");
    NotContained(lower, "rtp/avp/tcp");
    NotContained(lower, "interleaved=");
    PairErrors(lower, value);
  }

  lemma PairErrors(lower: string, value: string)
    ensures var r := ParseInterleaved(lower); r.Ok? ==> r.value.TcpInterleaved?
    ensures var r := ParseUdp(value); r.Ok? ==> r.value.UdpUnicast?
    ensures ParseInterleaved(lower) != Err(MissingAvp) && ParseUdp(value) != Err(MissingAvp)
  {
    hide FindPart, Split, Trim, ParseNumber;
  }

  /** What clients ask for: a pair of ports, or one port, which goes with the next. */
  lemma ClientRequestRead(a: nat, b: nat)
    ensures a <= U16_MAX && b <= U16_MAX ==>
              Parse(Header("RTP/AVP", Ports("client_port=", a, b))) == Ok(UdpUnicast(a, b))
    ensures Parse(Header("RTP/AVP", "client_port=" + Decimal(a)))
            == if a < 65535 then Ok(UdpUnicast(a, a + 1))
               else if a == 65535 then Err(Overflow)
               else Err(InvalidPort)
  {
    hide Decimal, ParsePair, Parse, Header, IsPlain, NoMark;
    var pair := Decimal(a) + ("-" + Decimal(b));
    PairPlain(a, b);
    DecimalText(a);
    DecimalText(b);
    NoMarkAppend("-", Decimal(b)) by { DashHasNoMark(); }
    NoMarkAppend(Decimal(a), "-" + Decimal(b));
    assert '=' !in pair;
    RequestRead(pair);
    RequestRead(Decimal(a));
    SingleNumber(a, U16_MAX, InvalidPort);
    if a <= U16_MAX && b <= U16_MAX {
      PairRoundTrip(a, b, U16_MAX, InvalidPort);
    }
  }

  /** The same for channels, and for whatever else stands where the channels should. */
  lemma TcpRequestRead(ports: string)
    requires IsPlain(ports)
    ensures var pair := ParsePair(ports, 255, InvalidChannel);
            Parse(Header("RTP/AVP/TCP", "interleaved=" + ports))
            == if pair.Err? then Err(pair.error) else Ok(TcpInterleaved(pair.value.0, pair.value.1))
  {
    hide ToLower, Trim, FindFrom, Split, IsPlain, ParsePair, FindPart, Contains, Header;
    var parameter := "interleaved=" + ports;
    NamesPlain();
    PlainAppend("interleaved=", ports);
    HeaderLower("RTP/AVP/TCP", parameter);
    LowerTcp();
    PlainLower(parameter);
    TcpMarked(parameter);
    SplitHeader("rtp/avp/tcp", parameter);
    SplitLast(parameter, ';') by {
      NoSemicolon(parameter);
    }
    FrontParts("rtp/avp/tcp", [parameter], "interleaved=");
    PortsFound("interleaved=", ports, []);
    assert [parameter] + [] == [parameter];
    PlainTrim(parameter);
    assert parameter[12..] == ports;
  }

  lemma NameHasNoMark()
    ensures NoMark("client_port=")
  {
  }

  lemma DashHasNoMark()
    ensures NoMark("-")
  {
  }

  lemma DecimalText(n: nat)
    ensures IsPlain(Decimal(n)) && NoMark(Decimal(n)) && '=' !in Decimal(n)
  {
    hide Decimal;
    DecimalRoundTrip(n);
    DigitsPlain(Decimal(n));
  }

  lemma RequestRead(ports: string)
    requires IsPlain(ports) && NoMark(ports) && '=' !in ports
    ensures var pair := ParsePair(ports, U16_MAX, InvalidPort);
            Parse(Header("RTP/AVP", "client_port=" + ports))
            == if pair.Err? then Err(pair.error) else Ok(UdpUnicast(pair.value.0, pair.value.1))
  {
    hide ToLower, Trim, FindFrom, Split, IsPlain, ParsePair, FindPart, Contains, NoMark, Header;
    var client := "client_port=" + ports;
    NamesPlain();
    PlainAppend("client_port=", ports);
    NoMarkAppend("client_port=", ports) by { NameHasNoMark(); }
    RequestIsUdp(client);
    SplitHeader("RTP/AVP", client);
    NoSemicolon(client);
    SplitLast(client, ';');
    FrontParts("RTP/AVP", [client], "client_port=");
    PortsFound("client_port=", ports, []);
    assert [client] + [] == [client];
    assert client == "client_port" + (['='] + ports);
    SplitFirst("client_port", '=', ports);
    SplitLast(ports, '=');
    PlainTrim(ports);
  }
}
