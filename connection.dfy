/** One TLS status session, after the strand has put its completions and callbacks in order.
    The TLS engine is abstract: it keeps one ordered log of the `send` and `close` calls made
    on it, and whether it is closed for reading and for writing. Callbacks that the engine makes
    from inside `received_data`, `send` or `close` (records, alerts, outgoing bytes, handshake
    messages) are separate method calls on the session. */
module Connection {
  import opened Text
  import opened HttpParser
  import opened Report

  /** What the session asks of the engine: application data handed to `send`, or `close`. */
  datatype EngineEvent = Sent(data: string) | Closed

  /** Botan's TLS::Server as the session uses it. */
  class Engine {
    var closedForReading: bool
    var closedForWriting: bool
    /** The calls of `send` and `close`, in the order they were made. */
    var log: seq<EngineEvent>

    constructor ()
      ensures !closedForReading && !closedForWriting && log == []
    {
      closedForReading, closedForWriting, log := false, false, [];
    }

    method Send(data: string)
      modifies this`log
      ensures log == old(log) + [Sent(data)]
    {
      log := log + [Sent(data)];
    }

    /** `close()`: sends close_notify, after which nothing more can be written. */
    method Close()
      modifies this`closedForWriting, this`log
      ensures closedForWriting && log == old(log) + [Closed]
    {
      closedForWriting, log := true, log + [Closed];
    }

    /** `received_data`: the engine processes a record; `endsReading` says whether the peer's
        close_notify (or a fatal alert) was among what it read. */
    method ReceivedData(endsReading: bool)
      modifies this`closedForReading
      ensures closedForReading == (old(closedForReading) || endsReading)
    {
      closedForReading := closedForReading || endsReading;
    }
  }

  /** The alerts a session tells apart. */
  datatype Alert = CloseNotify | OtherAlert(name: string)

  class Session {
    /** The engine; null once the session was stopped. */
    var tls: Engine?
    var parser: Parser?

    /** The bytes of the write in flight (`m_s2c`) and those waiting for it (`m_s2c_pending`). */
    var active: seq<byte>
    var pending: seq<byte>
    /** How many `async_write` operations are outstanding. */
    var writesInFlight: nat
    var socketOpen: bool

    var connectionSummary: string
    var sessionSummary: string
    var chelloSummary: string

    /** Botan::version_string(), the peer address as text, and the names Ciphersuite::by_id
        knows as valid suites. */
    const serverVersion: string
    const clientAddress: string
    const catalog: map<uint16, string>

    /** Everything handed to tls_emit_data, and the part of it whose write completed. */
    ghost var emitted: seq<byte>
    ghost var written: seq<byte>

    /** At most one write is outstanding, one is outstanding only while there are bytes in
        flight, and the completed, in-flight and waiting bytes are exactly what was emitted,
        in order. */
    ghost predicate Valid()
      reads this
    {
      writesInFlight <= 1 && (active == [] ==> writesInFlight == 0) && written + active + pending == emitted
    }

    constructor (serverVersion: string, clientAddress: string, catalog: map<uint16, string>)
      ensures Valid() && fresh(tls) && parser == null && socketOpen
      ensures !tls.closedForReading && !tls.closedForWriting && tls.log == []
      ensures active == [] && pending == [] && emitted == [] && written == []
      ensures connectionSummary == [] && sessionSummary == [] && chelloSummary == []
      ensures this.serverVersion == serverVersion && this.clientAddress == clientAddress && this.catalog == catalog
    {
      this.serverVersion, this.clientAddress, this.catalog := serverVersion, clientAddress, catalog;
      tls := new Engine();
      parser := null;
      active, pending, writesInFlight, socketOpen := [], [], 0, true;
      connectionSummary, sessionSummary, chelloSummary := [], [], [];
      emitted, written := [], [];
    }

    /** The parser's retained request bytes (none before the first record). */
    ghost function Buffered(): string
      reads this, parser
    {
      if parser == null then [] else parser.buffer
    }

    /** The report the 200 answer carries for `request`. */
    function StatusReport(request: Request): string
      reads this
    {
      connectionSummary + sessionSummary + chelloSummary + SummarizeRequest(request, clientAddress)
    }

    /** `stop`: close the engine and drop it; a second call does nothing. */
    method Stop()
      modifies this`tls, tls
      ensures tls == null
      ensures old(tls) != null ==> old(tls).closedForWriting && old(tls).log == old(tls.log) + [Closed]
      ensures old(tls) != null ==> old(tls).closedForReading == old(tls.closedForReading)
    {
      if tls == null {
        return;
      }
      tls.Close();
      tls := null;
    }

    /** The guard logic of `client_read`: `error` is the read's error, `engineThrew` says that
        `received_data` raised a Botan exception, and `endsReading` what the engine read.
        Returns whether another read is issued. */
    method ClientRead(error: bool, engineThrew: bool, endsReading: bool) returns (rearmed: bool)
      modifies this`tls, tls
      ensures old(tls) == null ==> !rearmed && tls == null
      ensures error ==> !rearmed && tls == null
      ensures error && old(tls) != null ==> old(tls).log == old(tls.log) + [Closed]
      ensures error ==> old(tls) != null ==> old(tls).closedForReading == old(tls.closedForReading)
      ensures !error && old(tls) != null ==>
        old(tls).closedForReading == (old(tls.closedForReading) || (!engineThrew && endsReading))
      ensures !error && old(tls) != null ==>
        (rearmed <==> !engineThrew && !old(tls).closedForReading)
      ensures !error && old(tls) != null && rearmed ==>
        tls == old(tls) && tls.log == old(tls.log) && tls.closedForWriting == old(tls.closedForWriting)
      ensures !error && old(tls) != null && !rearmed ==>
        tls == null && old(tls).log == old(tls.log) + [Closed] && old(tls).closedForWriting
    {
      if error {
        Stop();
        return false;
      }
      if tls == null {
        return false;
      }
      if engineThrew {
        Stop();
        return false;
      }
      tls.ReceivedData(endsReading);
      if tls.closedForReading {
        Stop();
        return false;
      }
      return true;
    }

    /** `tls_emit_data`: queue the bytes, and start a write when none is active. */
    method EmitData(buf: seq<byte>)
      requires Valid()
      modifies this`active, this`pending, this`writesInFlight, this`emitted
      ensures Valid()
      ensures emitted == old(emitted) + buf
      ensures var queued := old(pending) + buf;
        if old(active) == [] && queued != [] then
          active == queued && pending == [] && writesInFlight == old(writesInFlight) + 1
        else
          active == old(active) && pending == queued && writesInFlight == old(writesInFlight)
    {
      if buf != [] {
        pending := pending + buf;
      }
      emitted := emitted + buf;
      if active == [] && pending != [] {
        active, pending := pending, active;
        writesInFlight := writesInFlight + 1;
      }
    }

    /** `handle_client_write_completion` for the one outstanding write. */
    method WriteCompleted(error: bool)
      requires Valid() && writesInFlight == 1
      modifies this`tls, tls, this`active, this`pending, this`writesInFlight, this`emitted, this`written, this`socketOpen
      ensures Valid() && emitted == old(emitted)
      ensures error ==> tls == null && active == old(active) && pending == old(pending)
      ensures error ==> written == old(written) && writesInFlight == 0 && socketOpen == old(socketOpen)
      ensures error && old(tls) != null ==> old(tls).log == old(tls.log) + [Closed]
      ensures !error ==> tls == old(tls) && (tls != null ==> unchanged(tls))
      ensures !error ==> written == old(written) + old(active)
      ensures !error ==> active == old(pending) && pending == []
      ensures !error ==> writesInFlight == if old(pending) == [] then 0 else 1
      ensures !error ==> socketOpen == (old(socketOpen) && !(old(pending) == [] && (tls == null || tls.closedForWriting)))
    {
      if error {
        Stop();
        writesInFlight := 0;
        return;
      }
      written := written + active;
      active := [];
      writesInFlight := 0;
      if pending == [] && (tls == null || tls.closedForWriting) {
        socketOpen := false;
      }
      EmitData([]);
    }

    /** `handle_http_request`: answer the request through the engine, then close it. */
    method HandleHttpRequest(request: Request)
      modifies tls
      ensures tls != null ==>
        tls.log == old(tls.log) + [Sent(Response(request, StatusReport(request), serverVersion)), Closed]
      ensures tls != null ==> tls.closedForWriting
      ensures tls != null ==> tls.closedForReading == old(tls.closedForReading)
    {
      if tls == null {
        return;
      }
      tls.Send(Response(request, StatusReport(request), serverVersion));
      tls.Close();
    }

    /** `tls_record_received`: the first record creates the parser; a complete request is
        answered. The outcome is what the parser saw. */
    method RecordReceived(data: seq<byte>) returns (outcome: Outcome)
      modifies this`parser, parser, tls
      ensures parser != null && (old(parser) != null ==> parser == old(parser))
      ensures outcome == ParseRequest(old(Buffered()) + AsChars(data))
      ensures parser.buffer == if outcome.Delivered? then [] else old(Buffered()) + AsChars(data)
      ensures !outcome.Delivered? && tls != null ==> unchanged(tls)
      ensures outcome.Delivered? && tls != null ==>
        tls.log == old(tls.log) + [Sent(Response(outcome.request, StatusReport(outcome.request), serverVersion)), Closed]
      ensures outcome.Delivered? && tls != null ==> tls.closedForWriting
      ensures outcome.Delivered? && tls != null ==> tls.closedForReading == old(tls.closedForReading)
    {
      ghost var before := Buffered();
      if parser == null {
        parser := new Parser();
      }
      assert parser.buffer == before;
      outcome := parser.Consume(data);
      if outcome.Delivered? {
        HandleHttpRequest(outcome.request);
      }
    }

    /** `tls_alert`: a close_notify from the peer is answered by closing the engine. */
    method HandleAlert(alert: Alert)
      modifies tls
      ensures tls != null && !alert.CloseNotify? ==> unchanged(tls)
      ensures tls != null && alert.CloseNotify? ==>
        tls.closedForWriting && tls.log == old(tls.log) + [Closed]
      ensures tls != null ==> tls.closedForReading == old(tls.closedForReading)
    {
      if tls == null {
        return;
      }
      if alert.CloseNotify? {
        tls.Close();
      }
    }

    /** `tls_session_activated`. */
    method SessionActivated()
      modifies this`connectionSummary
      ensures connectionSummary == ConnectionSummary(serverVersion)
    {
      connectionSummary := ConnectionSummary(serverVersion);
    }

    /** `tls_session_established`. */
    method SessionEstablished(info: SessionInfo)
      modifies this`sessionSummary
      ensures sessionSummary == SessionSummary(info)
    {
      sessionSummary := SessionSummary(info);
    }

    /** `tls_inspect_handshake_msg`: only a client hello is recorded. */
    method InspectHandshakeMessage(message: HandshakeMessage)
      modifies this`chelloSummary
      ensures message.ClientHello? ==>
        chelloSummary == ClientHelloSummary(message.random, message.suites, catalog)
      ensures !message.ClientHello? ==> chelloSummary == old(chelloSummary)
    {
      if message.ClientHello? {
        chelloSummary := ClientHelloSummary(message.random, message.suites, catalog);
      }
    }
  }

  /** After `stop`, a read completion, a request and an alert leave the session and the old
      engine as they were: the engine's log ends with the one `close` of `stop`. */
  method StoppedSessionIsInert(s: Session, request: Request, alert: Alert) returns (rearmed: bool)
    requires s.tls != null
    modifies s, s.tls
    ensures !rearmed && s.tls == null
    ensures old(s.tls).log == old(s.tls.log) + [Closed]
  {
    var engine := s.tls;
    s.Stop();
    s.Stop();
    rearmed := s.ClientRead(false, false, false);
    s.HandleHttpRequest(request);
    s.HandleAlert(alert);
    assert engine.log == old(s.tls.log) + [Closed];
  }
}
