# Botan TLS HTTP status server — a Dafny model of its sequential core

Botan's `tls_http_server` command is a small HTTPS server. It accepts TLS clients until a
configured number has been served; 0 means no limit. Each client gets one HTTP answer: a
plain-text report on its own TLS handshake, or an error status. The TLS machinery lives in
Botan and the I/O in Boost.Asio. What is left, once the Asio strand has put every completion
handler and engine callback in order, is sequential logic. This project models that logic
and proves properties of it.

- `text.dfy` (module `Text`) holds shared pieces:
  - bytes and 16-bit ciphersuite codes;
  - `std::string::find`;
  - decimal output and its read-back;
  - `std::hex << setw(4)` output and its read-back;
  - Botan's `hex_encode`, which prints upper-case digits by default;
  - the iteration order of a `std::map<std::string, std::string>`: a total order on strings,
    and the sorted key sequence built from it.
- `istream.dfy` (module `IStream`) covers the two `std::istringstream` extractions the parser
  uses:
  - `>> word` skips "C"-locale white space. A word that runs to the end of the buffer sets
    eofbit, so the next extraction fails.
  - `getline` fails only when nothing is left.
  - It also gives an independent, character-by-character definition of the words of a string,
    and shows that the lines written one by one with a trailing `"\n"` are read back unchanged.
- `http_parser.dfy` (module `HttpParser`) is `HTTP_Parser::consume_input`. It has a parser
  class whose `Consume` method keeps the request buffer and runs the header loop. The loop is
  proved against the specification function `ParseRequest`. Lemmas cover:
  - when a request is delivered;
  - what a browser-style request parses to;
  - how header lines are split;
  - the 1024-name limit.
- `report.dfy` (module `Report`) holds the text the session produces:
  - the connection, session and client-hello summaries;
  - the request summary;
  - the 200 / 404 / 405 answers.

  Lemmas read each text back line by line and state its layout.
- `connection.dfy` (module `Connection`) is the session `TLS_Asio_HTTP_Session`, with:
  - the teardown guard around its engine reference;
  - the read-completion guard;
  - the active/pending write buffers and their swap-then-drain discipline;
  - the callbacks the TLS engine makes into it.

  The TLS engine is an abstract class. It has flags for being closed for reading and for
  writing, and one log of the `send` and `close` calls made on it, in order.
- `listener.dfy` (module `Listener`) is `ServerStatus` and the accept loop of
  `TLS_Asio_HTTP_Server`.

The model follows the code also where its behaviour is surprising:

- A request is delivered as soon as its first two words are present. Neither a version nor a
  blank line is awaited.
- A lone `"\r"` line (the blank line of a browser request) is skipped. Header-shaped lines
  after it are still collected.
- Header values keep the `'\r'` that precedes their line's `'\n'`.
- An accept error ends the accept loop: no further accept is issued.
- After a failed write, the active buffer is never cleared. No later write starts, because
  a write starts only when the active buffer is empty.
- The socket is closed only by a successful write completion that leaves nothing pending
  while the engine is gone or closed for writing.

Inputs the code takes from outside the core are parameters:
- Botan's version string (`serverVersion`);
- the peer address (`clientAddress`);
- the names `Ciphersuite::by_id` knows as valid suites (`catalog`);
- the fields of Botan's session summary (`SessionInfo`);
- a client hello's random and suite list (`HandshakeMessage`);
- the results of `received_data` (`engineThrew`, `endsReading`);
- the error flags of the Asio completions.

## Model

| member | source | states |
|---|---|---|
| Listener.ServerStatus.constructor | src/cli/tls_http_server.cpp:67 | A new status holds the given maximum and zero serviced clients. |
| Listener.ServerStatus.ShouldExit | src/cli/tls_http_server.cpp:69-75 | Never true when the maximum is 0; otherwise true once the serviced count has reached the maximum. It is characterised by `Server.HandleAccept` and `AdmitMany`. |
| Listener.ServerStatus.ClientServiced | src/cli/tls_http_server.cpp:77 | Raises the serviced count by exactly one. |
| Listener.Server.constructor | src/cli/tls_http_server.cpp:428-440 | A new server has armed its first accept, with nothing started or counted. |
| Listener.Server.HandleAccept | src/cli/tls_http_server.cpp:451-460 | Success starts one session, counts one client, and re-arms the accept exactly when the server should not exit. An error starts, counts and re-arms nothing. Both preserve the invariant: an accept is armed only while admission remains, started equals serviced, and the count never passes a non-zero maximum. |
| Listener.AdmitTwo | src/cli/tls_http_server.cpp:451-459 | With a maximum of 2, the first accept re-arms and the second does not, leaving 2 serviced. A failed accept does not re-arm. |
| Listener.AdmitMany | src/cli/tls_http_server.cpp:451-459 | For every maximum, k successful accepts on a fresh server each find the accept armed and count exactly k clients. The accept is armed again exactly when the maximum is 0 (no limit) or k is still below it. |
| Text.AsCharsRoundTrip | src/cli/tls_http_server.cpp:128 | Viewing the record's bytes as characters loses nothing: the bytes come back from the characters, and every string of octet-sized characters is the view of its bytes. |
| Text.Find | src/cli/tls_http_server.cpp:151 | Returns the first index at or after the start where the pattern occurs, or none when it occurs nowhere there. |
| Text.DecimalRoundTrip | src/cli/tls_http_server.cpp:312 | The decimal digits printed for the Content-Length read back as that same number. |
| Text.Decimal | src/cli/tls_http_server.cpp:312 | The printed length is a non-empty run of decimal digits with no leading zero. |
| Text.Hex4 | src/cli/tls_http_server.cpp:380-381 | A suite code prints as exactly four lower-case hex digits. |
| Text.Hex4RoundTrip | src/cli/tls_http_server.cpp:380-381 | The four hex digits read back as the suite code. |
| Text.Hex | src/cli/tls_http_server.cpp:359 | hex_encode gives two upper-case hex digits per byte. It is characterised by `HexRoundTrip`. |
| Text.HexRoundTrip | src/cli/tls_http_server.cpp:359 | The hex text stands for the bytes: reading its digit pairs back as bytes gives the bytes that were encoded. |
| Text.SortedKeys | src/cli/tls_http_server.cpp:289-291 | The header map is visited in its key order: every key exactly once, in strictly increasing lexicographic order. |
| Text.Least | src/cli/tls_http_server.cpp:289 | The first key the map visits is in the map and below every other key. |
| Text.BelowTotal | src/cli/tls_http_server.cpp:289 | Any two strings are ordered one way or the other. |
| Text.BelowAntisymmetric | src/cli/tls_http_server.cpp:289 | Strings ordered both ways are equal. |
| Text.BelowTransitive | src/cli/tls_http_server.cpp:289 | The string order is transitive. |
| IStream.ReadWord | src/cli/tls_http_server.cpp:137 | `>>` yields a word with no white space. It is empty exactly when the stream failed or only white space was left, and then the stream fails. |
| IStream.ReadLine | src/cli/tls_http_server.cpp:145 | getline yields the text before the next '\n' and continues after it. It yields the whole rest, failing afterwards, when no '\n' is left, and fails with an empty line when nothing is left. |
| IStream.ReadWordTokens | src/cli/tls_http_server.cpp:137 | One `>>` takes exactly the first of the string's white-space separated words, and the rest of the stream holds the other words. |
| IStream.ReadWordOf | src/cli/tls_http_server.cpp:137 | After leading white space, `>>` takes a word and stops at the following white space; at the end of the buffer it leaves the stream failed. |
| IStream.Tokens | src/cli/tls_http_server.cpp:137 | A string has no words exactly when it is all white space. |
| IStream.LinesOfJoin | src/cli/tls_http_server.cpp:282-294 | Lines written with a trailing "\n" each are read back by getline unchanged. |
| IStream.LinesCons | src/cli/tls_http_server.cpp:145 | getline on `a + "\n" + b` returns `a` and then the lines of `b`. |
| IStream.Lines | src/cli/tls_http_server.cpp:143-145 | The lines successive getline calls return until the stream fails. It is characterised by `LinesOfJoin` and `LinesCons`. |
| HttpParser.SplitHeader | src/cli/tls_http_server.cpp:151-158 | None exactly when the line holds no ": ". Otherwise the line is name + ": " + value, with the name (the text before the first ": ") holding none. |
| HttpParser.SplitHeaderOf | src/cli/tls_http_server.cpp:151-158 | A line built as name + ": " + value, with no ": " in the name, splits back into that name and value, the value keeping any ": " or '\r' of its own. |
| HttpParser.Parser.constructor | src/cli/tls_http_server.cpp:125 | A new parser holds an empty buffer. |
| HttpParser.CollectHeaders | src/cli/tls_http_server.cpp:143-164 | The header loop as a function of the remaining lines. It is characterised by `CollectHeaderLines`, `CollectFormatted`, `CollectStopsAtPlainLine`, `BlankLineSkipped` and `CollectBound`. |
| HttpParser.ParseRequest | src/cli/tls_http_server.cpp:130-170 | What one call does with its whole buffer: not ready, a delivered request, or the header error. It is characterised by `RequestLineWords`, `DeliveredWithoutBlankLine`, `ParseFormatted`, `HeaderLimit`, `DeliveredBound` and `DeliveredLineSafe`. |
| HttpParser.Parser.Consume | src/cli/tls_http_server.cpp:127-171 | Appends the bytes, and the outcome is the parse of the whole buffer. The buffer is cleared when a request is delivered, and otherwise holds the old bytes followed by the new. A delivered request has at most 1024 headers. |
| HttpParser.RequestLineWords | src/cli/tls_http_server.cpp:137-141 | No request is ready exactly when the buffer has fewer than two words. A delivered request's verb and location are the buffer's first two words. |
| HttpParser.DeliveredWithoutBlankLine | src/cli/tls_http_server.cpp:137-170 | "verb location" alone, with no version, header or blank line, delivers a request with an empty header map. |
| HttpParser.ParseFormatted | src/cli/tls_http_server.cpp:137-170 | A browser-style request (request line, `Name: Value` lines, blank line, all CRLF-ended) delivers its verb and location with the header map the pairs give. Later names overwrite earlier ones and values keep their '\r'. It raises the header error instead when that map would exceed 1024 names. |
| HttpParser.CollectHeaderLines | src/cli/tls_http_server.cpp:143-164 | The header loop takes each `Name: Value` line in turn into the map, whatever follows them, unless the map exceeds 1024 names first. |
| HttpParser.CollectFormatted | src/cli/tls_http_server.cpp:143-164 | Header lines ended by the blank line collect exactly the map the pairs give, or overflow. |
| HttpParser.CollectStopsAtPlainLine | src/cli/tls_http_server.cpp:151-154 | The first line that is neither "\r" nor holds ": " ends collection: nothing after it is read, not even header lines. |
| HttpParser.BlankLineSkipped | src/cli/tls_http_server.cpp:147-149 | The lone "\r" of a blank line is skipped: header lines after it are collected too. |
| HttpParser.HeaderLimit | src/cli/tls_http_server.cpp:159-163 | With distinct names, up to 1024 headers are delivered, all of them. Exactly 1024 is accepted; 1025 or more raise the error and deliver nothing. |
| HttpParser.CollectBound | src/cli/tls_http_server.cpp:159-163 | Starting from at most 1024 names, the header loop either overflows or collects at most 1024 names, whatever the lines are. |
| HttpParser.DeliveredBound | src/cli/tls_http_server.cpp:130-170 | For every buffer, a delivered request carries at most 1024 headers. |
| HttpParser.ReceivedDistinct | src/cli/tls_http_server.cpp:159 | Distinct header names each add one entry to the map. |
| HttpParser.ReceivedKeys | src/cli/tls_http_server.cpp:159 | The map holds the earlier keys plus exactly the names that were sent: every sent name is a key, and every key is an earlier key or a sent name. |
| HttpParser.ReceivedLastWins | src/cli/tls_http_server.cpp:159 | A repeated name keeps the value of its last line. |
| HttpParser.ReceivedUntouched | src/cli/tls_http_server.cpp:159 | A name no later line repeats keeps its value. |
| HttpParser.DeliveredLineSafe | src/cli/tls_http_server.cpp:137-159 | No field of a delivered request holds a '\n'. |
| Report.SuiteLines | src/cli/tls_http_server.cpp:377-390 | One suite line per offered suite, in the order offered. |
| Report.HeaderEntries | src/cli/tls_http_server.cpp:289-291 | One ` Name: Value` entry per key, in the order of the keys. |
| Report.SessionSummaryLayout | src/cli/tls_http_server.cpp:353-366 | The session summary reads back as the Version line and the Ciphersuite line, then a SessionID line in hex only for a non-empty id, then an SNI line only for a non-empty host name. |
| Report.SuiteLineReadBack | src/cli/tls_http_server.cpp:377-389 | A suite line is " - 0x", four hex digits that read back as the code, a space, and the label. |
| Report.ClientHelloLayout | src/cli/tls_http_server.cpp:368-394 | The client-hello summary reads back as the random in hex, the heading, and one suite line per offered suite, in order. |
| Report.RequestSummaryLayout | src/cli/tls_http_server.cpp:281-295 | The request summary reads back as "Client <address> requested <verb> <location>". With headers, it continues with the heading and one ` Name: Value` line per header, in map order, each name once; with none, it stops there. |
| Report.ResponseSelection | src/cli/tls_http_server.cpp:302-321 | The status read from the answer is 200 for GET of "/" or "/status", 404 for any other GET, and 405 for any other verb. The 404 and 405 answers are exactly their status line and an empty line. |
| Report.OkResponseFraming | src/cli/tls_http_server.cpp:307-315 | The 200 answer is its head followed by exactly the report. The head reads back as the status, Server, Content-Type and Content-Length lines, then the blank line. Its Content-Length header splits as such, and its value reads back as the report's length. |
| Report.OkStatus | src/cli/tls_http_server.cpp:309 | The 200 answer's status line reads as 200. |
| Report.ConnectionSummary | src/cli/tls_http_server.cpp:345-351 | The banner recorded on activation. It is characterised by `ConnectionSummaryLayout`. |
| Report.ConnectionSummaryLayout | src/cli/tls_http_server.cpp:345-351 | The connection summary reads back as "TLS negotiation with <version> test server" and one empty line. |
| Report.SessionSummary | src/cli/tls_http_server.cpp:353-366 | The summary recorded when the session is established. It is characterised by `SessionSummaryLayout`. |
| Report.SuiteLabel | src/cli/tls_http_server.cpp:382-388 | The label of one offered suite: the library's name for a valid suite, else "Renegotiation SCSV" for 0x00FF, else "Unknown ciphersuite". `SuiteLineReadBack` reads it back from its line. |
| Report.SuiteLine | src/cli/tls_http_server.cpp:379-388 | One offered suite's line without its '\n'. It is characterised by `SuiteLineReadBack`. |
| Report.ClientHelloSummary | src/cli/tls_http_server.cpp:368-394 | The summary recorded for a client hello. It is characterised by `ClientHelloLayout`. |
| Report.SummarizeRequest | src/cli/tls_http_server.cpp:281-295 | The request summary. It is characterised by `RequestSummaryLayout`. |
| Report.Response | src/cli/tls_http_server.cpp:302-321 | The answer text for a request. It is characterised by `ResponseSelection` and `OkResponseFraming`. |
| Connection.Engine.Send | src/cli/tls_http_server.cpp:324 | Appends one `Sent` event, carrying the data, to the engine's log of calls. |
| Connection.Engine.Close | src/cli/tls_http_server.cpp:212 | After `close` the engine is closed for writing, and one `Closed` event is appended to its log. |
| Connection.Engine.ReceivedData | src/cli/tls_http_server.cpp:240 | The engine becomes closed for reading when what it read ends the peer's side. |
| Connection.Engine.constructor | src/cli/tls_http_server.cpp:226 | A new engine is open both ways, and no call has reached it. |
| Connection.Session.constructor | src/cli/tls_http_server.cpp:186-227 | A new session holds a fresh open engine, no parser, empty buffers and summaries, and an open socket. |
| Connection.Session.StatusReport | src/cli/tls_http_server.cpp:305-307 | The report of the 200 answer: the connection, session and client-hello summaries, then the request summary. It is characterised by `OkResponseFraming`, and `HandleHttpRequest` sends it. |
| Connection.Session.Stop | src/cli/tls_http_server.cpp:206-218 | With no engine, it does nothing. Otherwise it closes the engine, whose log gains exactly one `Closed` event, and drops the reference, so a second call does nothing. |
| Connection.Session.ClientRead | src/cli/tls_http_server.cpp:229-254 | A read error stops the session. With no engine, it does nothing. If the engine threw or is now closed for reading, it stops, and the log gains one `Closed` event. Otherwise it re-arms the read and keeps the engine, with its log and its closed-for-writing flag unchanged. |
| Connection.Session.EmitData | src/cli/tls_http_server.cpp:328-343 | The bytes are appended to pending. A write starts, swapping pending into active and leaving pending empty, exactly when no write was active and something is pending. At most one write is outstanding, and written + active + pending is everything emitted, in order. |
| Connection.Session.WriteCompleted | src/cli/tls_http_server.cpp:256-267 | An error stops the session and leaves the buffers. Success marks the active bytes written. It closes the socket exactly when nothing is pending and the engine is gone or closed for writing. It then starts the next write with the pending bytes if there are any. The write invariant is kept. |
| Connection.Session.HandleHttpRequest | src/cli/tls_http_server.cpp:297-326 | With an engine, its log gains exactly two events, in this order: `Sent` with the chosen response, whose report is the three summaries and the request summary, then `Closed`. Without one, nothing happens. |
| Connection.Session.RecordReceived | src/cli/tls_http_server.cpp:273-279 | The parser is created on the first record and kept afterwards. The outcome is the parse of everything buffered. A delivered request is answered through the engine: its log gains `Sent` with the response, then `Closed`. Otherwise the engine is untouched. |
| Connection.Session.HandleAlert | src/cli/tls_http_server.cpp:396-406 | A close_notify closes a present engine, whose log gains one `Closed` event. Any other alert, or a missing engine, changes nothing. |
| Connection.Session.SessionActivated | src/cli/tls_http_server.cpp:345-351 | Records the connection summary. |
| Connection.Session.SessionEstablished | src/cli/tls_http_server.cpp:353-366 | Records the session summary of the established session. |
| Connection.Session.InspectHandshakeMessage | src/cli/tls_http_server.cpp:368-394 | A client hello records its summary. Any other message leaves the recorded summary. |
| Connection.StoppedSessionIsInert | src/cli/tls_http_server.cpp:206-218 | After `stop` (called twice), a read completion, a request and an alert neither re-arm nor reach the engine. The old engine's log gains exactly the one `Closed` event of the first `stop`. |

## Left out

- Boost.Asio sockets, `async_read_some`, `async_write`, strands, `io_service::run` and the worker threads are left out. Completions are method calls in the order the strand fixed, and their errors are boolean parameters.
- The contents of the inbound read buffer (`m_c2s`, 4096 bytes) and `bytes_transferred` are left out. They only reach Botan's `received_data`, which is abstract here.
- `std::atomic` in `ServerStatus` is a plain counter. Only the admission rule is modelled, not atomicity.
- Botan's TLS engine internals are abstract: decoding records, the handshake, and encryption. The callbacks the engine makes from inside `received_data`, `send` or `close` are separate calls on the session (`RecordReceived`, `EmitData`, `HandleAlert`, `SessionActivated`, `SessionEstablished`, `InspectHandshakeMessage`). The bytes they emit are not tied to what was sent.
- Connection.Engine.Close: it always sets closed-for-writing and logs the call. What Botan does on a second close, and the close_notify bytes it emits, are not modelled.
- Connection.Session.ClientRead: whether `received_data` throws, and whether the peer's side ended, are parameters (`engineThrew`, `endsReading`).
- Connection.Session.RecordReceived: the overflow is returned as an outcome. The `Botan::Invalid_Argument` it stands for reaches the catch in `client_read` as a Botan exception, which is the `engineThrew` case of `ClientRead`. The model does not join the two into one call, because the exception passes through the abstract engine.
- `Botan::version_string`, `Ciphersuite::by_id` with `valid()` and `to_string()`, the `Session_Summary` accessors and the `Client_Hello` accessors are parameters. The dynamic cast on the handshake message type is the `HandshakeMessage` variant.
- `remote_endpoint().address().to_string()` is the opaque string `clientAddress`.
- `log_error`, `log_exception` and the "Alert ..." line printed for other alerts write to standard output. They are not modelled.
- `tls_server_choose_app_protocol` only returns the constant "http/1.1" to Botan. It is not modelled.
- `create`, `setup` and `start` are left out. Creating the session and its engine is `Session.constructor`. `start` is the first read completion, which `ClientRead` covers.
- `serve_one_session` is not modelled as a separate call. Creating a session and arming the accept is the `acceptArmed` flag and `started` count of `Listener.Server`.
- Shared ownership is not modelled: `shared_from_this`, breaking the engine's back-reference cycle with `m_tls.reset()`, and the session's destruction. Dropping the reference is `tls := null`.
- The exact place of `m_req_buf.clear()` after the callback is left out. The callback does not touch the parser, so the model clears the buffer as part of the same call.
- The exception `send` may raise inside `handle_http_request` is left out. It belongs to the abstract engine.
- The command line front end is not part of this model: `TLS_HTTP_Server::go`, `--threads`, credential and policy loading, and the session databases.
- Chunking invariance is not claimed. Delivery depends on how the input is split into records, because a request fires as soon as two words are buffered.
- The text parameters (`serverVersion`, `clientAddress`, the `SessionInfo` strings, the `catalog` names) stand for C++ byte strings. The model does not constrain them to characters below 256. The Content-Length is the report's length in characters, which equals `report.size()` in bytes only for such strings.
