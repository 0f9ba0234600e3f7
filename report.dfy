/** The texts the status server writes: the three TLS summaries a session records as the
    handshake goes on, the one-request summary, and the HTTP response chosen by verb and
    location. Every summary is a list of lines each ended by '\n'; the lemmas read them back
    with getline. Botan's own strings (its version string, the negotiated protocol version
    and ciphersuite names) are parameters. */
module Report {
  import opened Text
  import opened IStream
  import opened HttpParser

  /** What Botan's Session_Summary reports about a finished handshake. */
  datatype SessionInfo = SessionInfo(version: string, ciphersuite: string, sessionId: seq<byte>, hostname: string)

  /** A handshake message shown to tls_inspect_handshake_msg; only a client hello is read. */
  datatype HandshakeMessage = ClientHello(random: seq<byte>, suites: seq<uint16>) | OtherMessage

  /** TLS_EMPTY_RENEGOTIATION_INFO_SCSV, section 3.3 of RFC 5746. */
  const RenegotiationScsv: uint16 := 0x00FF

  /** Recorded when the session is activated. */
  function ConnectionSummary(serverVersion: string): string
  {
    "TLS negotiation with " + serverVersion + " test server\n\n"
  }

  /** The lines of the session summary: version, ciphersuite, then the session id (in hex)
      and the SNI host name when they are not empty. */
  function SessionLines(s: SessionInfo): seq<string>
  {
    ["Version: " + s.version, "Ciphersuite: " + s.ciphersuite]
    + (if s.sessionId != [] then ["SessionID: " + Hex(s.sessionId)] else [])
    + (if s.hostname != [] then ["SNI: " + s.hostname] else [])
  }

  /** Recorded when the session is established. */
  function SessionSummary(s: SessionInfo): string
  {
    Join(SessionLines(s))
  }

  /** The name a ciphersuite code is shown with: its name if the library knows it as a valid
      suite (`catalog`), else the renegotiation signalling value's label, else unknown. */
  function SuiteLabel(id: uint16, catalog: map<uint16, string>): string
  {
    if id in catalog then catalog[id]
    else if id == RenegotiationScsv then "Renegotiation SCSV"
    else "Unknown ciphersuite"
  }

  /** ` - 0x00ff Renegotiation SCSV`: one offered suite, without its '\n'. */
  function SuiteLine(id: uint16, catalog: map<uint16, string>): string
  {
    " - 0x" + Hex4(id) + " " + SuiteLabel(id, catalog)
  }

  function SuiteLines(suites: seq<uint16>, catalog: map<uint16, string>): (r: seq<string>)
    ensures |r| == |suites|
    ensures forall i :: 0 <= i < |suites| ==> r[i] == SuiteLine(suites[i], catalog)
  {
    if suites == [] then [] else [SuiteLine(suites[0], catalog)] + SuiteLines(suites[1..], catalog)
  }

  function ClientHelloLines(random: seq<byte>, suites: seq<uint16>, catalog: map<uint16, string>): seq<string>
  {
    ["Client random: " + Hex(random), "Client offered following ciphersuites:"] + SuiteLines(suites, catalog)
  }

  /** Recorded when the client hello is inspected. */
  function ClientHelloSummary(random: seq<byte>, suites: seq<uint16>, catalog: map<uint16, string>): string
  {
    Join(ClientHelloLines(random, suites, catalog))
  }

  /** ` Name: Value`, one per header, in the order of the given keys. */
  function HeaderEntries(keys: seq<string>, m: map<string, string>): (r: seq<string>)
    requires forall i :: 0 <= i < |keys| ==> keys[i] in m
    ensures |r| == |keys|
    ensures forall i :: 0 <= i < |keys| ==> r[i] == " " + keys[i] + ": " + m[keys[i]]
  {
    if keys == [] then [] else [" " + keys[0] + ": " + m[keys[0]]] + HeaderEntries(keys[1..], m)
  }

  /** `Client <address> requested <verb> <location>`. */
  function RequestLine(request: Request, client: string): string
  {
    "Client " + client + " requested " + request.verb + " " + request.location
  }

  /** The header part of the request summary: nothing when there are no headers. */
  function HeaderSection(m: map<string, string>): seq<string>
  {
    if |m| == 0 then [] else ["Client HTTP headers:"] + HeaderEntries(SortedKeys(m.Keys), m)
  }

  function RequestLines(request: Request, client: string): seq<string>
  {
    [RequestLine(request, client)] + HeaderSection(request.headers)
  }

  /** The one-request summary; `client` is the peer's address as text. */
  function SummarizeRequest(request: Request, client: string): string
  {
    Join(RequestLines(request, client))
  }

  /** The locations answered with the report. */
  predicate IsStatusLocation(location: string)
  {
    location == "/" || location == "/status"
  }

  /** The status line and headers of the 200 answer, each ended by "\r\n", then the blank line. */
  function OkHeadLines(serverVersion: string, length: nat): seq<string>
  {
    ["HTTP/1.0 200 OK\r", "Server: " + serverVersion + "\r", "Content-Type: text/plain\r",
     "Content-Length: " + Decimal(length) + "\r", "\r"]
  }

  /** Status line and header block of the 200 answer, up to and including the blank line. */
  function OkHead(serverVersion: string, length: nat): string
  {
    Join(OkHeadLines(serverVersion, length))
  }

  /** The whole response to one request. */
  function Response(request: Request, report: string, serverVersion: string): string
  {
    if request.verb == "GET" then
      if IsStatusLocation(request.location) then OkHead(serverVersion, |report|) + report
      else "HTTP/1.0 404 Not Found\r\n\r\n"
    else "HTTP/1.0 405 Method Not Allowed\r\n\r\n"
  }

  /** The status code a client reads from `HTTP/1.0 ddd ...`. */
  function StatusCode(response: string): Option<nat>
  {
    if |response| >= 13 && response[..9] == "HTTP/1.0 " && response[12] == ' '
       && IsDigit(response[9]) && IsDigit(response[10]) && IsDigit(response[11])
    then Some(DecimalValue(response[9..12]))
    else None
  }

  // ---------------------------------------------------------------- lemmas

  lemma SuiteLineNoNewline(id: uint16, catalog: map<uint16, string>)
    requires forall id :: id in catalog ==> '\n' !in catalog[id]
    ensures '\n' !in SuiteLine(id, catalog)
  {
    var h := Hex4(id);
    Hex4NoNewline(id);
    SuiteLabelNoNewline(id, catalog);
    PrefixNoNewline();
    NoNewlineConcat(" - 0x", h);
    NoNewlineConcat(" - 0x" + h, " ");
    NoNewlineConcat(" - 0x" + h + " ", SuiteLabel(id, catalog));
  }

  lemma PrefixNoNewline()
    ensures '\n' !in " - 0x" && '\n' !in " "
  {
  }

  lemma Hex4NoNewline(id: uint16)
    ensures '\n' !in Hex4(id)
  {
    var h := Hex4(id);
    forall k | 0 <= k < 4 ensures h[k] != '\n' { assert IsLowerHex(h[k]); }
  }

  lemma SuiteLabelNoNewline(id: uint16, catalog: map<uint16, string>)
    requires forall id :: id in catalog ==> '\n' !in catalog[id]
    ensures '\n' !in SuiteLabel(id, catalog)
  {
    if id !in catalog {
      assert '\n' !in "Renegotiation SCSV" && '\n' !in "Unknown ciphersuite";
    }
  }

  lemma {:induction false} SuiteLinesNoNewline(suites: seq<uint16>, catalog: map<uint16, string>)
    requires forall id :: id in catalog ==> '\n' !in catalog[id]
    ensures NoNewline(SuiteLines(suites, catalog))
  {
    var ls := SuiteLines(suites, catalog);
    forall i | 0 <= i < |ls| ensures '\n' !in ls[i] {
      SuiteLineNoNewline(suites[i], catalog);
    }
  }

  lemma HexNoNewline(bs: seq<byte>)
    ensures '\n' !in Hex(bs)
  {
    var h := Hex(bs);
    forall k | 0 <= k < |h| ensures h[k] != '\n' { assert IsUpperHex(h[k]); }
  }

  /** The connection summary reads back as the banner line and one empty line. */
  lemma ConnectionSummaryLayout(serverVersion: string)
    requires '\n' !in serverVersion
    ensures Lines(Good(ConnectionSummary(serverVersion))) ==
      ["TLS negotiation with " + serverVersion + " test server", ""]
  {
    var line := "TLS negotiation with " + serverVersion + " test server";
    BannerNoNewline();
    NoNewlineConcat("TLS negotiation with ", serverVersion);
    NoNewlineConcat("TLS negotiation with " + serverVersion, " test server");
    NoNewlinePair(line, "", []);
    assert [line, ""] + [] == [line, ""];
    assert Join([""]) == "\n";
    assert ConnectionSummary(serverVersion) == Join([line, ""]);
    LinesOfJoin([line, ""]);
  }

  lemma BannerNoNewline()
    ensures '\n' !in "TLS negotiation with " && '\n' !in " test server" && '\n' !in ""
  {
  }

  /** The session summary is the two fixed lines, then the optional session id and SNI lines. */
  lemma SessionSummaryLayout(s: SessionInfo)
    requires '\n' !in s.version && '\n' !in s.ciphersuite && '\n' !in s.hostname
    ensures Lines(Good(SessionSummary(s))) == SessionLines(s)
    ensures |Lines(Good(SessionSummary(s)))| ==
      2 + (if s.sessionId != [] then 1 else 0) + (if s.hostname != [] then 1 else 0)
    ensures Lines(Good(SessionSummary(s)))[0] == "Version: " + s.version
    ensures Lines(Good(SessionSummary(s)))[1] == "Ciphersuite: " + s.ciphersuite
    ensures s.sessionId != [] ==> Lines(Good(SessionSummary(s)))[2] == "SessionID: " + Hex(s.sessionId)
    ensures s.hostname != [] ==> Lines(Good(SessionSummary(s)))[|SessionLines(s)| - 1] == "SNI: " + s.hostname
  {
    SessionLinesNoNewline(s);
    LinesOfJoin(SessionLines(s));
  }

  lemma SessionLinesNoNewline(s: SessionInfo)
    requires '\n' !in s.version && '\n' !in s.ciphersuite && '\n' !in s.hostname
    ensures NoNewline(SessionLines(s))
  {
    var id: seq<string> := if s.sessionId != [] then ["SessionID: " + Hex(s.sessionId)] else [];
    var sni: seq<string> := if s.hostname != [] then ["SNI: " + s.hostname] else [];
    var tail := id + sni;
    assert NoNewline(tail) by {
      HexNoNewline(s.sessionId);
      NoNewlineConcat("SessionID: ", Hex(s.sessionId));
      NoNewlineConcat("SNI: ", s.hostname);
      forall i | 0 <= i < |tail| ensures '\n' !in tail[i] {
        if i < |id| { assert tail[i] == id[i]; } else { assert tail[i] == sni[i - |id|]; }
      }
    }
    NoNewlineConcat("Ciphersuite: ", s.ciphersuite);
    NoNewlineConcat("Version: ", s.version);
    NoNewlineCons("Ciphersuite: " + s.ciphersuite, tail);
    NoNewlineCons("Version: " + s.version, ["Ciphersuite: " + s.ciphersuite] + tail);
    assert SessionLines(s) == ["Version: " + s.version] + (["Ciphersuite: " + s.ciphersuite] + tail);
  }

  /** Each offered suite line holds the suite's code in four hex digits and its label. */
  lemma SuiteLineReadBack(id: uint16, catalog: map<uint16, string>)
    ensures |SuiteLine(id, catalog)| == 10 + |SuiteLabel(id, catalog)|
    ensures var line := SuiteLine(id, catalog);
      line[..5] == " - 0x" && line[9] == ' ' &&
      (forall k :: 5 <= k < 9 ==> IsLowerHex(line[k])) &&
      HexNumber(line[5..9]) == id as int &&
      line[10..] == SuiteLabel(id, catalog)
  {
    var h := Hex4(id);
    Hex4RoundTrip(id);
    SlicesOf(" - 0x", h, " ", SuiteLabel(id, catalog));
  }

  lemma SlicesOf(a: string, h: string, b: string, c: string)
    requires |a| == 5 && |h| == 4 && |b| == 1
    ensures var line := a + h + b + c;
      |line| == 10 + |c| && line[..5] == a && line[5..9] == h && line[9] == b[0] && line[10..] == c
      && forall k :: 5 <= k < 9 ==> line[k] == h[k - 5]
  {
  }

  /** The client-hello summary: the random, the heading, then one line per offered suite in
      the order offered. */
  lemma ClientHelloLayout(random: seq<byte>, suites: seq<uint16>, catalog: map<uint16, string>)
    requires forall id :: id in catalog ==> '\n' !in catalog[id]
    ensures var ls := Lines(Good(ClientHelloSummary(random, suites, catalog)));
      |ls| == 2 + |suites| &&
      ls[0] == "Client random: " + Hex(random) &&
      ls[1] == "Client offered following ciphersuites:" &&
      forall i :: 0 <= i < |suites| ==> ls[2 + i] == SuiteLine(suites[i], catalog)
  {
    ClientHelloLinesNoNewline(random, suites, catalog);
    LinesOfJoin(ClientHelloLines(random, suites, catalog));
  }

  lemma ClientHelloLinesNoNewline(random: seq<byte>, suites: seq<uint16>, catalog: map<uint16, string>)
    requires forall id :: id in catalog ==> '\n' !in catalog[id]
    ensures NoNewline(ClientHelloLines(random, suites, catalog))
  {
    HexNoNewline(random);
    NoNewlineConcat("Client random: ", Hex(random));
    SuiteLinesNoNewline(suites, catalog);
    NoNewlinePair("Client random: " + Hex(random), "Client offered following ciphersuites:", SuiteLines(suites, catalog));
  }

  lemma NoNewlineConcat(a: string, b: string)
    requires '\n' !in a && '\n' !in b
    ensures '\n' !in a + b
  {
    forall i | 0 <= i < |a + b| ensures (a + b)[i] != '\n' {
      if i < |a| { assert (a + b)[i] == a[i]; } else { assert (a + b)[i] == b[i - |a|]; }
    }
  }

  lemma {:induction false} HeaderEntriesNoNewline(keys: seq<string>, m: map<string, string>)
    requires forall i :: 0 <= i < |keys| ==> keys[i] in m
    requires HeadersLineSafe(m)
    ensures NoNewline(HeaderEntries(keys, m))
  {
    var entries := HeaderEntries(keys, m);
    forall i | 0 <= i < |entries| ensures '\n' !in entries[i] {
      var k := keys[i];
      assert LineSafe(k) && LineSafe(m[k]);
      NoNewlineConcat(" ", k);
      NoNewlineConcat(" " + k, ": ");
      NoNewlineConcat(" " + k + ": ", m[k]);
    }
  }

  lemma NoNewlineCons(a: string, ls: seq<string>)
    requires '\n' !in a && NoNewline(ls)
    ensures NoNewline([a] + ls)
  {
    forall i | 0 <= i < |[a] + ls| ensures '\n' !in ([a] + ls)[i] {
      if i > 0 { assert ([a] + ls)[i] == ls[i - 1]; }
    }
  }

  lemma NoNewlinePair(a: string, b: string, ls: seq<string>)
    requires '\n' !in a && '\n' !in b && NoNewline(ls)
    ensures NoNewline([a, b] + ls)
  {
    forall i | 0 <= i < |[a, b] + ls| ensures '\n' !in ([a, b] + ls)[i] {
      if i > 1 { assert ([a, b] + ls)[i] == ls[i - 2]; }
    }
  }

  lemma RequestLineNoNewline(request: Request, client: string)
    requires LineSafe(client) && LineSafe(request.verb) && LineSafe(request.location)
    ensures '\n' !in RequestLine(request, client)
  {
    NoNewlineConcat("Client ", client);
    NoNewlineConcat("Client " + client, " requested ");
    NoNewlineConcat("Client " + client + " requested ", request.verb);
    NoNewlineConcat("Client " + client + " requested " + request.verb, " ");
    NoNewlineConcat("Client " + client + " requested " + request.verb + " ", request.location);
  }

  lemma HeaderSectionNoNewline(m: map<string, string>)
    requires HeadersLineSafe(m)
    ensures NoNewline(HeaderSection(m))
  {
    if |m| == 0 {
      assert HeaderSection(m) == [];
    } else {
      SortedEntriesNoNewline(m);
      HeadedNoNewline(HeaderEntries(SortedKeys(m.Keys), m));
    }
  }

  lemma HeadedNoNewline(entries: seq<string>)
    requires NoNewline(entries)
    ensures NoNewline(["Client HTTP headers:"] + entries)
  {
    NoNewlineCons("Client HTTP headers:", entries);
  }

  lemma SortedEntriesNoNewline(m: map<string, string>)
    requires HeadersLineSafe(m)
    ensures NoNewline(HeaderEntries(SortedKeys(m.Keys), m))
  {
    var keys := SortedKeys(m.Keys);
    assert forall i :: 0 <= i < |keys| ==> keys[i] in m;
    HeaderEntriesNoNewline(keys, m);
  }

  /** With headers: the heading, then ` Name: Value` for each key in map order. */
  lemma HeaderSectionShape(m: map<string, string>)
    ensures var hs := HeaderSection(m);
      var keys := SortedKeys(m.Keys);
      (|m| == 0 ==> hs == []) &&
      (|m| > 0 ==>
        |hs| == 1 + |keys| && hs[0] == "Client HTTP headers:" &&
        forall i :: 0 <= i < |keys| ==> hs[1 + i] == " " + keys[i] + ": " + m[keys[i]])
  {
    if |m| == 0 {
      assert HeaderSection(m) == [];
    } else {
      var keys := SortedKeys(m.Keys);
      var entries := HeaderEntries(keys, m);
      var hs := ["Client HTTP headers:"] + entries;
      forall i | 0 <= i < |keys| ensures hs[1 + i] == " " + keys[i] + ": " + m[keys[i]] {
        assert hs[1 + i] == entries[i];
      }
    }
  }

  /** The request summary: who asked for what, then one line per header in the key order of
      the header map, each name once. */
  lemma RequestSummaryLayout(request: Request, client: string)
    requires LineSafe(client) && LineSafe(request.verb) && LineSafe(request.location)
    requires HeadersLineSafe(request.headers)
    ensures var ls := Lines(Good(SummarizeRequest(request, client)));
      var keys := SortedKeys(request.headers.Keys);
      ls[0] == "Client " + client + " requested " + request.verb + " " + request.location &&
      (|request.headers| == 0 ==> |ls| == 1) &&
      (|request.headers| > 0 ==>
        |ls| == 2 + |request.headers| && ls[1] == "Client HTTP headers:" &&
        (forall i :: 0 <= i < |keys| ==> ls[2 + i] == " " + keys[i] + ": " + request.headers[keys[i]]) &&
        (forall i, j :: 0 <= i < j < |keys| ==> Below(keys[i], keys[j]) && keys[i] != keys[j]) &&
        (forall k :: k in request.headers <==> k in keys))
  {
    var m := request.headers;
    var first := RequestLine(request, client);
    var hs := HeaderSection(m);
    RequestLineNoNewline(request, client);
    HeaderSectionNoNewline(m);
    NoNewlineCons(first, hs);
    LinesOfJoin([first] + hs);
    HeaderSectionShape(m);
    assert |m.Keys| == |m|;
    var ls := [first] + hs;
    assert forall i :: 0 <= i < |hs| ==> ls[1 + i] == hs[i];
  }

  lemma {:induction false} ThreeDigits(d: string)
    requires |d| == 3 && IsDigit(d[0]) && IsDigit(d[1]) && IsDigit(d[2])
    ensures DecimalValue(d) == (d[0] as int - '0' as int) * 100 + (d[1] as int - '0' as int) * 10 + (d[2] as int - '0' as int)
  {
    var d2 := d[..2];
    var d1 := d2[..1];
    assert d1[..0] == [];
    assert DecimalValue(d1) == d[0] as int - '0' as int;
    assert DecimalValue(d2) == (d[0] as int - '0' as int) * 10 + (d[1] as int - '0' as int);
  }

  lemma StatusCodeOf(d: string, tail: string)
    requires |d| == 3 && IsDigit(d[0]) && IsDigit(d[1]) && IsDigit(d[2])
    requires tail != [] && tail[0] == ' '
    ensures StatusCode("HTTP/1.0 " + d + tail) == Some(DecimalValue(d))
  {
    var r := "HTTP/1.0 " + d + tail;
    assert r[..9] == "HTTP/1.0 ";
    assert r[9..12] == d;
    assert r[12] == tail[0];
  }

  lemma OkStatus(serverVersion: string, report: string)
    ensures StatusCode(OkHead(serverVersion, |report|) + report) == Some(200)
  {
    var ls := OkHeadLines(serverVersion, |report|);
    var tail := " OK\r" + "\n" + Join(ls[1..]) + report;
    assert OkHead(serverVersion, |report|) + report == "HTTP/1.0 " + "200" + tail;
    StatusCodeOf("200", tail);
    ThreeDigits("200");
  }

  lemma NotFoundStatus()
    ensures StatusCode("HTTP/1.0 404 Not Found\r\n\r\n") == Some(404)
  {
    assert "HTTP/1.0 404 Not Found\r\n\r\n" == "HTTP/1.0 " + "404" + " Not Found\r\n\r\n";
    StatusCodeOf("404", " Not Found\r\n\r\n");
    ThreeDigits("404");
  }

  lemma NotAllowedStatus()
    ensures StatusCode("HTTP/1.0 405 Method Not Allowed\r\n\r\n") == Some(405)
  {
    assert "HTTP/1.0 405 Method Not Allowed\r\n\r\n" == "HTTP/1.0 " + "405" + " Method Not Allowed\r\n\r\n";
    StatusCodeOf("405", " Method Not Allowed\r\n\r\n");
    ThreeDigits("405");
  }

  /** The verb and location choose the answer: 200 with the report, 404 or 405 with
      nothing but the status line. */
  lemma ResponseSelection(request: Request, report: string, serverVersion: string)
    ensures var r := Response(request, report, serverVersion);
      StatusCode(r) == Some(if request.verb != "GET" then 405 else if IsStatusLocation(request.location) then 200 else 404)
    ensures request.verb == "GET" && !IsStatusLocation(request.location) ==>
      Response(request, report, serverVersion) == "HTTP/1.0 404 Not Found\r\n\r\n"
    ensures request.verb != "GET" ==>
      Response(request, report, serverVersion) == "HTTP/1.0 405 Method Not Allowed\r\n\r\n"
  {
    if request.verb != "GET" {
      NotAllowedStatus();
    } else if IsStatusLocation(request.location) {
      OkStatus(serverVersion, report);
    } else {
      NotFoundStatus();
    }
  }

  /** The 200 answer frames the report: status line, server, content type and content
      length lines, the blank line, then exactly the report, whose length the
      Content-Length value states. */
  lemma OkResponseFraming(request: Request, report: string, serverVersion: string)
    requires request.verb == "GET" && IsStatusLocation(request.location)
    requires '\n' !in serverVersion
    ensures Response(request, report, serverVersion) == OkHead(serverVersion, |report|) + report
    ensures Lines(Good(OkHead(serverVersion, |report|))) ==
      ["HTTP/1.0 200 OK\r", "Server: " + serverVersion + "\r", "Content-Type: text/plain\r",
       "Content-Length: " + Decimal(|report|) + "\r", "\r"]
    ensures SplitHeader("Content-Length: " + Decimal(|report|) + "\r") == Some(("Content-Length", Decimal(|report|) + "\r"))
    ensures DecimalValue(Decimal(|report|)) == |report|
  {
    OkHeadNoNewline(serverVersion, |report|);
    LinesOfJoin(OkHeadLines(serverVersion, |report|));
    ContentLengthHeader(Decimal(|report|));
    DecimalRoundTrip(|report|);
  }

  lemma OkHeadNoNewline(serverVersion: string, length: nat)
    requires '\n' !in serverVersion
    ensures NoNewline(OkHeadLines(serverVersion, length))
  {
    var d := Decimal(length);
    assert '\n' !in d by { forall k | 0 <= k < |d| ensures d[k] != '\n' { assert IsDigit(d[k]); } }
    NoNewlineConcat("Server: ", serverVersion);
    NoNewlineConcat("Server: " + serverVersion, "\r");
    NoNewlineConcat("Content-Length: ", d);
    NoNewlineConcat("Content-Length: " + d, "\r");
  }

  /** The Content-Length line splits at its first ": " into the name and the digits (with the
      line's '\r'). */
  lemma ContentLengthHeader(d: string)
    ensures SplitHeader("Content-Length: " + d + "\r") == Some(("Content-Length", d + "\r"))
  {
    forall j: nat ensures !MatchAt("Content-Length", ": ", j) {
      if j + 2 <= 14 { assert "Content-Length"[j] != ':'; }
    }
    SplitHeaderOf("Content-Length", d + "\r");
    assert "Content-Length" + ": " + (d + "\r") == "Content-Length: " + d + "\r";
  }
}
