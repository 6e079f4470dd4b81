/**
 * Manager: ServerManager's bookkeeping of listening sockets and clients. select, accept, recv
 * and send are left to the caller: each handler is given what the system call returned and
 * changes the descriptor sets and the per-client maps as ServerManager.cpp does.
 */
module Manager {
  import opened Wrappers
  import opened Text
  import opened Records
  import opened Routing
  import opened Reader
  import opened Utils

  /** The size of an fd_set on the platforms the server targets. */
  const FD_SETSIZE: int := 1024
  /** size_t arithmetic is modulo 2^64. */
  const SIZE_MOD: int := 0x1_0000_0000_0000_0000

  /** The fields of ServerManager: _servers_map, _client_server_map, _read_requests, _write_buffer, _bytes_sent, the two fd_sets, _max_fd. */
  datatype State = State(
    servers: map<int, ServerSettings>,
    clientServer: map<int, int>,
    requests: map<int, ClientRequest>,
    writeBuffer: map<int, string>,
    bytesSent: map<int, nat>,
    readFds: set<int>,
    writeFds: set<int>,
    maxFd: int)

  /** How the process stops: exit(status) inside a handler, or an exception that unwinds to main, which returns ERROR. */
  datatype Halt = ExitWith(status: int) | Escaped

  /**
   * What the handlers keep true: a client has an entry in every per-client map and is in exactly
   * one of the two sets; its listening socket is a server; clients are below FD_SETSIZE and at
   * most _max_fd; requests count their bytes; the send offset stays inside the response.
   */
  predicate Valid(st: State) {
    st.requests.Keys == st.clientServer.Keys
    && st.writeBuffer.Keys == st.clientServer.Keys
    && st.bytesSent.Keys == st.clientServer.Keys
    && st.clientServer.Keys !! st.servers.Keys
    && (forall c :: c in st.clientServer ==> st.clientServer[c] in st.servers && 0 <= c < FD_SETSIZE && c <= st.maxFd)
    && st.readFds !! st.writeFds
    && st.writeFds <= st.clientServer.Keys
    && st.readFds <= st.clientServer.Keys + st.servers.Keys
    && st.clientServer.Keys <= st.readFds + st.writeFds
    && (forall c :: c in st.requests ==> Consistent(st.requests[c]))
    && (forall c :: c in st.bytesSent && c in st.writeBuffer ==> st.bytesSent[c] <= |st.writeBuffer[c]|)
  }

  function Get<V>(m: map<int, V>, k: int): Option<V> {
    if k in m then Some(m[k]) else None
  }

  /** Everything the manager holds about one descriptor. */
  datatype Slot = Slot(
    server: Option<int>, request: Option<ClientRequest>, out: Option<string>, sent: Option<nat>,
    reading: bool, writing: bool)

  function SlotOf(st: State, fd: int): Slot {
    Slot(Get(st.clientServer, fd), Get(st.requests, fd), Get(st.writeBuffer, fd), Get(st.bytesSent, fd),
         fd in st.readFds, fd in st.writeFds)
  }

  /** `a` and `b` hold the same servers and the same about every descriptor but `fd`. */
  ghost predicate AgreeExcept(a: State, b: State, fd: int) {
    a.servers == b.servers && forall g :: g != fd ==> SlotOf(a, g) == SlotOf(b, g)
  }

  /** The slot of a client that has just connected, or has just been answered on a kept connection. */
  function FreshSlot(listening: int): Slot {
    Slot(Some(listening), Some(FreshRequest()), Some(""), Some(0), true, false)
  }

  /** The configuration of the server a client connected to, if the maps know it. */
  function ServerOf(st: State, fd: int): Option<ServerSettings> {
    if fd in st.clientServer && st.clientServer[fd] in st.servers then Some(st.servers[st.clientServer[fd]])
    else None
  }

  // ================================================================ _cleanup_client

  /** _cleanup_client: the descriptor leaves both sets and every per-client map. */
  function Cleanup(st: State, fd: int): State {
    st.(readFds := st.readFds - {fd}, writeFds := st.writeFds - {fd},
        clientServer := st.clientServer - {fd}, requests := st.requests - {fd},
        writeBuffer := st.writeBuffer - {fd}, bytesSent := st.bytesSent - {fd})
  }

  /** Cleaning up forgets the client entirely, touches no other descriptor, and keeps the bookkeeping valid. */
  lemma CleanupForgets(st: State, fd: int)
    ensures SlotOf(Cleanup(st, fd), fd) == Slot(None, None, None, None, false, false)
    ensures AgreeExcept(st, Cleanup(st, fd), fd)
    ensures Valid(st) ==> Valid(Cleanup(st, fd))
  {
  }

  // ================================================================ _handle_new_connection

  /** _handle_new_connection given accept's result: a failed accept and a descriptor past FD_SETSIZE (closed again) change nothing. */
  function NewConnection(st: State, listening: int, accepted: int): State {
    if accepted < 0 || accepted >= FD_SETSIZE then st
    else
      st.(readFds := st.readFds + {accepted},
          maxFd := if accepted > st.maxFd then accepted else st.maxFd,
          clientServer := st.clientServer[accepted := listening],
          requests := st.requests[accepted := FreshRequest()],
          writeBuffer := st.writeBuffer[accepted := ""],
          bytesSent := st.bytesSent[accepted := 0])
  }

  /** A failed accept, or a descriptor past FD_SETSIZE, leaves the state as it was. */
  lemma NewConnectionRejected(st: State, listening: int, accepted: int)
    requires accepted < 0 || accepted >= FD_SETSIZE
    ensures NewConnection(st, listening, accepted) == st
  {
  }

  /** An accepted descriptor below FD_SETSIZE becomes a reading client of the listening socket; nothing else changes. */
  lemma NewConnectionRegisters(st: State, listening: int, accepted: int)
    requires Valid(st) && listening in st.servers && 0 <= accepted < FD_SETSIZE
    requires accepted !in st.clientServer && accepted !in st.servers
    ensures var r := NewConnection(st, listening, accepted);
      Valid(r) && AgreeExcept(st, r, accepted) && SlotOf(r, accepted) == FreshSlot(listening)
      && accepted <= r.maxFd && st.maxFd <= r.maxFd
  {
    var r := NewConnection(st, listening, accepted);
    assert r.clientServer.Keys == st.clientServer.Keys + {accepted};
    assert r.readFds == st.readFds + {accepted};
  }

  // ================================================================ _should_close_connection

  /**
   * _should_close_connection as written: in_str(word, str) asks whether `word` occurs in `str`,
   * so each test asks whether the whole request, or the whole response, is a piece of the text
   * "Connection: close".
   */
  function ShouldCloseConnection(request: string, response: string): (r: bool)
    ensures r <==> Occurs(request, CONNECTION_CLOSE) || Occurs(response, CONNECTION_CLOSE)
  {
    InStr(request, CONNECTION_CLOSE) || InStr(response, CONNECTION_CLOSE)
  }

  lemma OccursNoLonger(pat: string, s: string)
    requires Occurs(pat, s)
    ensures |pat| <= |s|
  {
    var i :| MatchAt(s, pat, i);
  }

  /** Only a request or a response of at most 17 characters closes the connection. */
  lemma ShouldCloseOnlyShortTexts(request: string, response: string)
    requires |request| > |CONNECTION_CLOSE| && |response| > |CONNECTION_CLOSE|
    ensures !ShouldCloseConnection(request, response)
  {
    if Occurs(request, CONNECTION_CLOSE) {
      OccursNoLonger(request, CONNECTION_CLOSE);
    }
    if Occurs(response, CONNECTION_CLOSE) {
      OccursNoLonger(response, CONNECTION_CLOSE);
    }
  }

  /** An emptied request buffer, as a drained body leaves it, always closes. */
  lemma ShouldCloseEmptyRequest(response: string)
    ensures ShouldCloseConnection("", response)
  {
    assert MatchAt(CONNECTION_CLOSE, "", 0);
  }

  /** The fixed 400 and 413 replies carry "Connection: close" yet keep the connection of any request longer than 17 characters. */
  lemma FixedRepliesKeepConnection(request: string)
    requires |request| > |CONNECTION_CLOSE|
    ensures !ShouldCloseConnection(request, BAD_REQUEST_RESPONSE)
    ensures !ShouldCloseConnection(request, PAYLOAD_TOO_LARGE_RESPONSE)
    ensures Occurs(CONNECTION_CLOSE, BAD_REQUEST_RESPONSE) && Occurs(CONNECTION_CLOSE, PAYLOAD_TOO_LARGE_RESPONSE)
  {
    ShouldCloseOnlyShortTexts(request, BAD_REQUEST_RESPONSE);
    ShouldCloseOnlyShortTexts(request, PAYLOAD_TOO_LARGE_RESPONSE);
    FixedReplyHasClose(BAD_REQUEST_STATUS, BAD_REQUEST_HEADING);
    FixedReplyHasClose(PAYLOAD_TOO_LARGE_STATUS, PAYLOAD_TOO_LARGE_HEADING);
  }

  /** A hand-written reply carries the "Connection: close" text. */
  lemma FixedReplyHasClose(status: string, heading: string)
    ensures Occurs(CONNECTION_CLOSE, FixedReply(status, heading))
  {
    var a, c := status + "\r\nContent-Type: text/html\r\n", "\r\n\r\n" + heading;
    MatchInConcat(a, CONNECTION_CLOSE, c);
    assert FixedReply(status, heading) == a + CONNECTION_CLOSE + c;
  }

  // ================================================================ _handle_write

  /** The request, response and offset _handle_write reads with operator[], which supplies defaults. */
  function RequestAt(st: State, fd: int): ClientRequest {
    if fd in st.requests then st.requests[fd] else FreshRequest()
  }

  function OutAt(st: State, fd: int): string {
    if fd in st.writeBuffer then st.writeBuffer[fd] else ""
  }

  function SentAt(st: State, fd: int): nat {
    if fd in st.bytesSent then st.bytesSent[fd] else 0
  }

  /** send fills at most what it was given, or returns -1. */
  predicate SendResult(st: State, fd: int, sent: int) {
    -1 <= sent && (SentAt(st, fd) <= |OutAt(st, fd)| ==> sent <= |OutAt(st, fd)| - SentAt(st, fd))
  }

  /** The connection is kept: a fresh request, an empty response, and back to reading. */
  function KeepAlive(st: State, fd: int): State {
    st.(requests := st.requests[fd := FreshRequest()], writeBuffer := st.writeBuffer[fd := ""],
        bytesSent := st.bytesSent[fd := 0], writeFds := st.writeFds - {fd}, readFds := st.readFds + {fd})
  }

  /**
   * _handle_write given send's result. substr past the end raises out_of_range, which unwinds
   * to main. The result is stored in a size_t, so -1 is 2^64 - 1 and only 0 counts as a failure;
   * the offset grows modulo 2^64.
   */
  function WriteOutcome(st: State, fd: int, sent: int): (State, Option<Halt>)
    requires SendResult(st, fd, sent)
  {
    var out := OutAt(st, fd);
    var offset := SentAt(st, fd);
    var st1 := st.(writeBuffer := st.writeBuffer[fd := out], bytesSent := st.bytesSent[fd := offset]);
    if offset > |out| then (st1, Some(Escaped))
    else
      var n := sent % SIZE_MOD;
      if n == 0 then (Cleanup(st1, fd), None)
      else
        var next := (offset + n) % SIZE_MOD;
        var st2 := st1.(bytesSent := st1.bytesSent[fd := next]);
        if next != |out| then (st2, None)
        else if ShouldCloseConnection(RequestAt(st, fd).buffer, out) then (Cleanup(st2, fd), None)
        else (KeepAlive(st2, fd), None)
  }

  /** Moving a client's send offset inside its response keeps the bookkeeping valid. */
  lemma SetOffsetKeepsValid(st: State, fd: int, k: nat)
    requires Valid(st) && fd in st.clientServer && k <= |st.writeBuffer[fd]|
    ensures var r := st.(bytesSent := st.bytesSent[fd := k]);
      Valid(r) && AgreeExcept(st, r, fd) && SlotOf(r, fd) == SlotOf(st, fd).(sent := Some(k))
  {
  }

  /** Keeping the connection alive returns the client to the state of a fresh connection. */
  lemma KeepAliveKeepsValid(st: State, fd: int)
    requires Valid(st) && fd in st.writeFds
    ensures var r := KeepAlive(st, fd);
      Valid(r) && AgreeExcept(st, r, fd) && SlotOf(r, fd) == FreshSlot(st.clientServer[fd])
  {
  }

  /** Inside a valid state operator[] finds every entry, so the write reads the client's own response and offset. */
  lemma WriteReadsClient(st: State, fd: int)
    requires Valid(st) && fd in st.writeFds
    ensures OutAt(st, fd) == st.writeBuffer[fd] && SentAt(st, fd) == st.bytesSent[fd]
    ensures RequestAt(st, fd) == st.requests[fd] && SentAt(st, fd) <= |OutAt(st, fd)|
    ensures st.(writeBuffer := st.writeBuffer[fd := OutAt(st, fd)], bytesSent := st.bytesSent[fd := SentAt(st, fd)]) == st
  {
  }

  /** A send of nothing closes the client. */
  lemma WriteNothingCloses(st: State, fd: int)
    requires Valid(st) && fd in st.writeFds
    ensures SendResult(st, fd, 0)
    ensures var (r, halt) := WriteOutcome(st, fd, 0);
      halt.None? && Valid(r) && AgreeExcept(st, r, fd) && SlotOf(r, fd) == Slot(None, None, None, None, false, false)
  {
    WriteReadsClient(st, fd);
    CleanupForgets(st, fd);
  }

  /**
   * A send that wrote part of what is left advances the offset by that many and keeps the client
   * writing. A std::string is shorter than 2^64, which the model states as a requirement.
   */
  lemma WriteAdvances(st: State, fd: int, sent: int)
    requires Valid(st) && fd in st.writeFds && |st.writeBuffer[fd]| < SIZE_MOD
    requires 0 < sent && st.bytesSent[fd] + sent < |st.writeBuffer[fd]|
    ensures SendResult(st, fd, sent)
    ensures var (r, halt) := WriteOutcome(st, fd, sent);
      halt.None? && Valid(r) && AgreeExcept(st, r, fd)
      && SlotOf(r, fd) == SlotOf(st, fd).(sent := Some(st.bytesSent[fd] + sent))
  {
    WriteStepsBy(st, fd, sent);
    SetOffsetKeepsValid(st, fd, st.bytesSent[fd] + sent);
  }

  /** The offset a send that wrote `sent` bytes of what is left reaches: no wrap-around. */
  lemma WriteStepsBy(st: State, fd: int, sent: int)
    requires Valid(st) && fd in st.writeFds && |st.writeBuffer[fd]| < SIZE_MOD
    requires 0 < sent && st.bytesSent[fd] + sent <= |st.writeBuffer[fd]|
    ensures SendResult(st, fd, sent)
    ensures var done := st.bytesSent[fd] + sent; var st2 := st.(bytesSent := st.bytesSent[fd := done]);
      WriteOutcome(st, fd, sent) ==
        if done != |st.writeBuffer[fd]| then (st2, None)
        else if ShouldCloseConnection(st.requests[fd].buffer, st.writeBuffer[fd]) then (Cleanup(st2, fd), None)
        else (KeepAlive(st2, fd), None)
  {
    WriteReadsClient(st, fd);
    var done := st.bytesSent[fd] + sent;
    assert sent % SIZE_MOD == sent && done % SIZE_MOD == done;
  }

  /** A send that finishes the response of a client that should close removes it. */
  lemma WriteFinishesClosing(st: State, fd: int, sent: int)
    requires Valid(st) && fd in st.writeFds && |st.writeBuffer[fd]| < SIZE_MOD
    requires 0 < sent && st.bytesSent[fd] + sent == |st.writeBuffer[fd]|
    requires ShouldCloseConnection(st.requests[fd].buffer, st.writeBuffer[fd])
    ensures SendResult(st, fd, sent)
    ensures var (r, halt) := WriteOutcome(st, fd, sent);
      halt.None? && Valid(r) && AgreeExcept(st, r, fd) && SlotOf(r, fd) == Slot(None, None, None, None, false, false)
  {
    WriteStepsBy(st, fd, sent);
    var st2 := st.(bytesSent := st.bytesSent[fd := |st.writeBuffer[fd]|]);
    SetOffsetKeepsValid(st, fd, |st.writeBuffer[fd]|);
    CleanupForgets(st2, fd);
  }

  /** A send that finishes the response of a client that should not close returns it to reading as if it had just connected. */
  lemma WriteFinishesKeeping(st: State, fd: int, sent: int)
    requires Valid(st) && fd in st.writeFds && |st.writeBuffer[fd]| < SIZE_MOD
    requires 0 < sent && st.bytesSent[fd] + sent == |st.writeBuffer[fd]|
    requires !ShouldCloseConnection(st.requests[fd].buffer, st.writeBuffer[fd])
    ensures SendResult(st, fd, sent)
    ensures var (r, halt) := WriteOutcome(st, fd, sent);
      halt.None? && Valid(r) && AgreeExcept(st, r, fd) && SlotOf(r, fd) == FreshSlot(st.clientServer[fd])
  {
    WriteStepsBy(st, fd, sent);
    var st2 := st.(bytesSent := st.bytesSent[fd := |st.writeBuffer[fd]|]);
    SetOffsetKeepsValid(st, fd, |st.writeBuffer[fd]|);
    KeepAliveKeepsValid(st2, fd);
  }

  /**
   * send failing with -1 at the start of a response is not taken for a failure: the offset becomes
   * 2^64 - 1, past the end of any response, and the next write to that client raises out_of_range.
   */
  lemma SendErrorAtStartEndsServer(st: State, fd: int)
    requires Valid(st) && fd in st.writeFds && st.bytesSent[fd] == 0
    requires 0 < |st.writeBuffer[fd]| < SIZE_MOD - 1
    ensures SendResult(st, fd, -1)
    ensures var (r, halt) := WriteOutcome(st, fd, -1);
      halt.None? && fd in r.writeFds && r.bytesSent[fd] == SIZE_MOD - 1 > |r.writeBuffer[fd]|
      && forall sent :: SendResult(r, fd, sent) ==> WriteOutcome(r, fd, sent).1 == Some(Escaped)
  {
    WriteReadsClient(st, fd);
  }

  /** With the offset inside the response, -1 only steps it back by one. */
  lemma SendErrorLaterStepsBack(st: State, fd: int)
    requires Valid(st) && fd in st.writeFds && 0 < st.bytesSent[fd] && |st.writeBuffer[fd]| < SIZE_MOD
    ensures SendResult(st, fd, -1)
    ensures var (r, halt) := WriteOutcome(st, fd, -1);
      halt.None? && Valid(r) && AgreeExcept(st, r, fd)
      && SlotOf(r, fd) == SlotOf(st, fd).(sent := Some(st.bytesSent[fd] - 1))
  {
    WriteStepsBack(st, fd);
    SetOffsetKeepsValid(st, fd, st.bytesSent[fd] - 1);
  }

  /** size_t arithmetic: -1 is 2^64 - 1, and adding it to a positive offset steps it back by one. */
  lemma WrapMinusOne(offset: nat)
    requires 0 < offset < SIZE_MOD
    ensures (-1) % SIZE_MOD == SIZE_MOD - 1
    ensures (offset + (SIZE_MOD - 1)) % SIZE_MOD == offset - 1
  {
    assert offset + (SIZE_MOD - 1) == (offset - 1) + SIZE_MOD;
  }

  /** The state a send of -1 with the offset inside the response leaves. */
  lemma WriteStepsBack(st: State, fd: int)
    requires Valid(st) && fd in st.writeFds && 0 < st.bytesSent[fd] && |st.writeBuffer[fd]| < SIZE_MOD
    ensures SendResult(st, fd, -1)
    ensures WriteOutcome(st, fd, -1) == (st.(bytesSent := st.bytesSent[fd := st.bytesSent[fd] - 1]), None)
  {
    WriteReadsClient(st, fd);
    WrapMinusOne(st.bytesSent[fd]);
  }

  // ================================================================ _handle_read

  /** The client answers: its request as it now stands, the response to send from its start, the descriptor moved to the write set. */
  function Respond(st: State, fd: int, cr: ClientRequest, out: string): State {
    st.(requests := st.requests[fd := cr], writeBuffer := st.writeBuffer[fd := out], bytesSent := st.bytesSent[fd := 0],
        readFds := st.readFds - {fd}, writeFds := st.writeFds + {fd})
  }

  /** The client goes on reading with its request as it now stands. */
  function KeepReading(st: State, fd: int, cr: ClientRequest): State {
    st.(requests := st.requests[fd := cr])
  }

  /** The new state, what is left of the client's recv stream, and whether the process stops. */
  datatype Outcome = Outcome(st: State, rest: seq<RecvResult>, halt: Option<Halt>)

  /** Storing prepare_response's result; a 405 first drains the body from the rest of the stream. */
  function Answer(st: State, fd: int, cr: ClientRequest, p: Prepared, rest: seq<RecvResult>): Outcome {
    match p
    case Reply(text) => Outcome(Respond(st, fd, cr, text), rest, None)
    case ReplyAfterDrain(text) =>
      var d := DrainAndAdjust(cr, text, rest);
      Outcome(Respond(st, fd, d.request, d.response), d.rest, None)
    case Exit(status) => Outcome(KeepReading(st, fd, cr), rest, Some(ExitWith(status)))
    case Uncaught(_) => Outcome(KeepReading(st, fd, cr), rest, Some(Escaped))
  }

  /**
   * After the recv loop stopped at `last`: an error cleans the client up, EAGAIN keeps it reading,
   * and the peer closing answers the request if it is complete and 400 otherwise.
   */
  function Stopped(st: State, fd: int, cr: ClientRequest, last: RecvResult, p: Prepared, rest: seq<RecvResult>): Outcome {
    if last.Failed? then Outcome(Cleanup(st, fd), rest, None)
    else if last.WouldBlock? then Outcome(KeepReading(st, fd, cr), rest, None)
    else if Complete(cr) then Answer(st, fd, cr, p, rest)
    else Outcome(Respond(st, fd, cr, BAD_REQUEST_RESPONSE), rest, None)
  }

  /** _handle_read on the client's recv stream: 413 over a limit, a complete request answered at once, or the stop handled. */
  function ReadOutcome(st: State, fd: int, input: seq<RecvResult>, env: Env, reason: int -> string,
                       parse: string -> Request): Outcome
  {
    var server := ServerOf(st, fd);
    var e := ReadLoop(RequestAt(st, fd), input, server);
    var rest := input[e.used..];
    var p := PrepareOutcome(parse(e.cr.buffer), server, env, reason);
    match e.stop
    case StopTooLarge => Outcome(Respond(st, fd, e.cr, PAYLOAD_TOO_LARGE_RESPONSE), rest, None)
    case StopReady => Answer(st, fd, e.cr, p, rest)
    case StopRecv(last) => Stopped(st, fd, e.cr, last, p, rest)
  }

  lemma RespondKeepsValid(st: State, fd: int, cr: ClientRequest, out: string)
    requires Valid(st) && fd in st.clientServer && Consistent(cr)
    ensures var r := Respond(st, fd, cr, out);
      Valid(r) && AgreeExcept(st, r, fd)
      && SlotOf(r, fd) == Slot(Some(st.clientServer[fd]), Some(cr), Some(out), Some(0), false, true)
  {
  }

  lemma AnswerKeepsValid(st: State, fd: int, cr: ClientRequest, p: Prepared, rest: seq<RecvResult>)
    requires Valid(st) && fd in st.clientServer && Consistent(cr)
    ensures var o := Answer(st, fd, cr, p, rest);
      (o.halt.None? <==> p.Reply? || p.ReplyAfterDrain?)
      && (o.halt.None? ==> Valid(o.st) && AgreeExcept(st, o.st, fd) && fd in o.st.writeFds && o.st.bytesSent[fd] == 0)
  {
    match p
    case Reply(text) => RespondKeepsValid(st, fd, cr, text);
    case ReplyAfterDrain(text) =>
      var d := DrainAndAdjust(cr, text, rest);
      DrainAndAdjustSpec(cr, text, rest);
      RespondKeepsValid(st, fd, d.request, d.response);
    case Exit(_) =>
    case Uncaught(_) =>
  }

  lemma StoppedKeepsValid(st: State, fd: int, cr: ClientRequest, last: RecvResult, p: Prepared, rest: seq<RecvResult>)
    requires Valid(st) && fd in st.clientServer && fd in st.readFds && Consistent(cr) && !Received(last)
    ensures var o := Stopped(st, fd, cr, last, p, rest);
      o.halt.None? ==>
        Valid(o.st) && AgreeExcept(st, o.st, fd)
        && (fd !in o.st.clientServer <==> last.Failed?)
        && (fd in o.st.readFds <==> last.WouldBlock?)
        && (last.WouldBlock? ==> o.st.requests[fd] == cr)
        && (fd in o.st.clientServer && fd !in o.st.readFds ==> fd in o.st.writeFds && o.st.bytesSent[fd] == 0)
  {
    if last.Failed? {
      CleanupForgets(st, fd);
    } else if last.WouldBlock? {
    } else if Complete(cr) {
      AnswerKeepsValid(st, fd, cr, p, rest);
    } else {
      RespondKeepsValid(st, fd, cr, BAD_REQUEST_RESPONSE);
    }
  }

  /**
   * A read keeps the bookkeeping valid and leaves other clients alone; the client is removed exactly
   * on a recv error, goes on reading exactly on EAGAIN (with every byte read appended), and
   * otherwise waits to send a response from its start.
   */
  lemma ReadKeepsValid(st: State, fd: int, input: seq<RecvResult>, env: Env, reason: int -> string,
                       parse: string -> Request)
    requires Valid(st) && fd in st.clientServer && fd in st.readFds
    ensures var o := ReadOutcome(st, fd, input, env, reason, parse);
      var e := ReadLoop(st.requests[fd], input, ServerOf(st, fd));
      o.halt.None? ==>
        Valid(o.st) && AgreeExcept(st, o.st, fd)
        && (fd !in o.st.clientServer <==> e.stop == StopRecv(Failed))
        && (fd in o.st.readFds <==> e.stop == StopRecv(WouldBlock))
        && (e.stop == StopRecv(WouldBlock) ==>
              o.st.requests[fd].buffer == st.requests[fd].buffer + DataBytes(input[..e.used]))
        && (fd in o.st.clientServer && fd !in o.st.readFds ==> fd in o.st.writeFds && o.st.bytesSent[fd] == 0)
  {
    var cr := st.requests[fd];
    var server := ServerOf(st, fd);
    var e := ReadLoop(cr, input, server);
    var rest := input[e.used..];
    var p := PrepareOutcome(parse(e.cr.buffer), server, env, reason);
    ReadLoopKeepsConsistent(cr, input, server);
    ReadLoopBuffer(cr, input, server);
    ReadLoopStops(cr, input, server);
    match e.stop
    case StopTooLarge => RespondKeepsValid(st, fd, e.cr, PAYLOAD_TOO_LARGE_RESPONSE);
    case StopReady => AnswerKeepsValid(st, fd, e.cr, p, rest);
    case StopRecv(last) => StoppedKeepsValid(st, fd, e.cr, last, p, rest);
  }

  /** A peer that closes before its request is complete gets the fixed 400 reply. */
  lemma ClosedEarlyGetsBadRequest(st: State, fd: int, input: seq<RecvResult>, env: Env, reason: int -> string,
                                  parse: string -> Request)
    requires Valid(st) && fd in st.clientServer
    requires var e := ReadLoop(st.requests[fd], input, ServerOf(st, fd)); e.stop == StopRecv(Closed) && !Complete(e.cr)
    ensures var o := ReadOutcome(st, fd, input, env, reason, parse);
      o.halt.None? && o.st.writeBuffer[fd] == BAD_REQUEST_RESPONSE && fd in o.st.writeFds
  {
  }

  // ================================================================ setup

  /** A configured server: the address and port it binds and what it serves. */
  datatype Listener = Listener(host: int, port: int, settings: ServerSettings)

  predicate SameEndpoint(a: Listener, b: Listener) {
    a.host == b.host && a.port == b.port
  }

  /** The first index from `j` on whose listener binds the endpoint of `ls[i]`. */
  function FirstFrom(ls: seq<Listener>, i: nat, j: nat): (k: nat)
    requires j <= i < |ls|
    ensures j <= k <= i && SameEndpoint(ls[k], ls[i])
    ensures forall m :: j <= m < k ==> !SameEndpoint(ls[m], ls[i])
    decreases i - j
  {
    if SameEndpoint(ls[j], ls[i]) then j else FirstFrom(ls, i, j + 1)
  }

  /** The earliest listener binding the same endpoint as `ls[i]`. */
  function Owner(ls: seq<Listener>, i: nat): nat
    requires i < |ls|
  {
    FirstFrom(ls, i, 0)
  }

  /**
   * The descriptor setup gives listener i: `sockets[k]` is the socket setUpIndividualServer
   * would open for listener k, and a listener reuses the descriptor of the first one before it
   * on the same host and port.
   */
  function SetupFd(ls: seq<Listener>, sockets: seq<int>, i: nat): int
    requires |sockets| == |ls| && i < |ls|
  {
    sockets[Owner(ls, i)]
  }

  /** _servers_map after the first n listeners: each stored under its descriptor, a later one replacing an earlier. */
  function ServersAfter(init: map<int, ServerSettings>, ls: seq<Listener>, sockets: seq<int>, n: nat): map<int, ServerSettings>
    requires n <= |ls| == |sockets|
  {
    if n == 0 then init else ServersAfter(init, ls, sockets, n - 1)[SetupFd(ls, sockets, n - 1) := ls[n - 1].settings]
  }

  /** Listeners on one endpoint have the same owner. */
  lemma OwnerShared(ls: seq<Listener>, i: nat, k: nat)
    requires i < |ls| && k < |ls| && SameEndpoint(ls[i], ls[k])
    ensures Owner(ls, i) == Owner(ls, k)
  {
    var a, b := Owner(ls, i), Owner(ls, k);
    if a < b {
      assert SameEndpoint(ls[a], ls[k]);
    } else if b < a {
      assert SameEndpoint(ls[b], ls[i]);
    }
  }

  lemma OwnerOfFirst(ls: seq<Listener>, i: nat, j: nat)
    requires j <= i < |ls| && SameEndpoint(ls[j], ls[i])
    requires forall m :: 0 <= m < j ==> !SameEndpoint(ls[m], ls[i])
    ensures Owner(ls, i) == j && Owner(ls, j) == j
  {
    OwnerShared(ls, i, j);
  }

  /** When the opened sockets are distinct, two listeners share a descriptor exactly when they bind the same endpoint. */
  lemma SetupFdShared(ls: seq<Listener>, sockets: seq<int>, i: nat, k: nat)
    requires |sockets| == |ls| && i < |ls| && k < |ls|
    requires forall a, b :: 0 <= a < b < |sockets| ==> sockets[a] != sockets[b]
    ensures SetupFd(ls, sockets, i) == SetupFd(ls, sockets, k) <==> SameEndpoint(ls[i], ls[k])
  {
    if SameEndpoint(ls[i], ls[k]) {
      OwnerShared(ls, i, k);
    } else {
      var a, b := Owner(ls, i), Owner(ls, k);
      assert a != b;
      assert sockets[a] != sockets[b] by {
        if a < b {} else {}
      }
    }
  }

  /** Every listener's descriptor is a server, and the last listener on an endpoint is the one stored under it. */
  lemma {:induction false} ServersAfterLastWins(init: map<int, ServerSettings>, ls: seq<Listener>, sockets: seq<int>, n: nat, i: nat)
    requires i < n <= |ls| == |sockets|
    requires forall a, b :: 0 <= a < b < |sockets| ==> sockets[a] != sockets[b]
    requires forall m :: i < m < n ==> !SameEndpoint(ls[m], ls[i])
    ensures SetupFd(ls, sockets, i) in ServersAfter(init, ls, sockets, n)
    ensures ServersAfter(init, ls, sockets, n)[SetupFd(ls, sockets, i)] == ls[i].settings
  {
    if n - 1 != i {
      SetupFdShared(ls, sockets, n - 1, i);
      ServersAfterLastWins(init, ls, sockets, n - 1, i);
    }
  }

  /** Only the listeners' descriptors are added. */
  lemma {:induction false} ServersAfterKeys(init: map<int, ServerSettings>, ls: seq<Listener>, sockets: seq<int>, n: nat)
    requires n <= |ls| == |sockets|
    ensures forall fd :: fd in ServersAfter(init, ls, sockets, n) <==>
      fd in init || exists i :: 0 <= i < n && SetupFd(ls, sockets, i) == fd
  {
    if n > 0 {
      ServersAfterKeys(init, ls, sockets, n - 1);
    }
  }

  // ================================================================ ServerManager

  class ServerManager {
    var servers: map<int, ServerSettings>
    var clientServer: map<int, int>
    var requests: map<int, ClientRequest>
    var writeBuffer: map<int, string>
    var bytesSent: map<int, nat>
    var readFds: set<int>
    var writeFds: set<int>
    var maxFd: int

    function Snapshot(): State
      reads this
    {
      State(servers, clientServer, requests, writeBuffer, bytesSent, readFds, writeFds, maxFd)
    }

    constructor ()
      ensures Snapshot() == State(map[], map[], map[], map[], map[], {}, {}, 0)
      ensures Valid(Snapshot())
    {
      servers, clientServer, requests, writeBuffer, bytesSent := map[], map[], map[], map[], map[];
      readFds, writeFds := {}, {};
      maxFd := 0;
    }

    /** setup: each listener takes the descriptor of the first earlier one on its endpoint, or its own new socket. */
    method Setup(ls: seq<Listener>, sockets: seq<int>) returns (fds: seq<int>)
      requires |sockets| == |ls|
      modifies this
      ensures |fds| == |ls| && forall i :: 0 <= i < |ls| ==> fds[i] == SetupFd(ls, sockets, i)
      ensures Snapshot() == old(Snapshot()).(servers := ServersAfter(old(servers), ls, sockets, |ls|))
    {
      fds := [];
      var i := 0;
      while i < |ls|
        invariant 0 <= i <= |ls| && |fds| == i
        invariant forall k :: 0 <= k < i ==> fds[k] == SetupFd(ls, sockets, k)
        invariant Snapshot() == old(Snapshot()).(servers := ServersAfter(old(servers), ls, sockets, i))
      {
        var fd := 0;
        var reused := false;
        var j := 0;
        while j < i
          invariant 0 <= j <= i && !reused
          invariant forall m :: 0 <= m < j ==> !SameEndpoint(ls[m], ls[i])
        {
          if ls[j].host == ls[i].host && ls[j].port == ls[i].port {
            OwnerOfFirst(ls, i, j);
            fd := fds[j];
            reused := true;
            break;
          }
          j := j + 1;
        }
        if !reused {
          OwnerOfFirst(ls, i, i);
          fd := sockets[i];
        }
        servers := servers[fd := ls[i].settings];
        fds := fds + [fd];
        i := i + 1;
      }
    }

    /** _cleanup_client. */
    method CleanupClient(fd: int)
      modifies this
      ensures Snapshot() == Cleanup(old(Snapshot()), fd)
    {
      readFds := readFds - {fd};
      writeFds := writeFds - {fd};
      clientServer := clientServer - {fd};
      requests := requests - {fd};
      writeBuffer := writeBuffer - {fd};
      bytesSent := bytesSent - {fd};
    }

    /** _handle_new_connection given what accept returned. */
    method HandleNewConnection(listening: int, accepted: int)
      modifies this
      ensures Snapshot() == NewConnection(old(Snapshot()), listening, accepted)
    {
      if accepted < 0 {
        return;
      }
      if accepted >= FD_SETSIZE {
        return;
      }
      readFds := readFds + {accepted};
      if accepted > maxFd {
        maxFd := accepted;
      }
      clientServer := clientServer[accepted := listening];
      requests := requests[accepted := FreshRequest()];
      writeBuffer := writeBuffer[accepted := ""];
      bytesSent := bytesSent[accepted := 0];
    }

    /** _handle_write given what send returned. */
    method HandleWrite(fd: int, sent: int) returns (halt: Option<Halt>)
      requires SendResult(Snapshot(), fd, sent)
      modifies this
      ensures (Snapshot(), halt) == WriteOutcome(old(Snapshot()), fd, sent)
    {
      var out := if fd in writeBuffer then writeBuffer[fd] else "";
      var offset := if fd in bytesSent then bytesSent[fd] else 0;
      writeBuffer := writeBuffer[fd := out];
      bytesSent := bytesSent[fd := offset];
      if offset > |out| {
        return Some(Escaped);
      }
      halt := None;
      var n := sent % SIZE_MOD;
      if n == 0 {
        CleanupClient(fd);
        return;
      }
      var next := (offset + n) % SIZE_MOD;
      bytesSent := bytesSent[fd := next];
      if next == |out| {
        var request := if fd in requests then requests[fd] else FreshRequest();
        if ShouldCloseConnection(request.buffer, out) {
          CleanupClient(fd);
        } else {
          requests := requests[fd := FreshRequest()];
          writeBuffer := writeBuffer[fd := ""];
          bytesSent := bytesSent[fd := 0];
          writeFds := writeFds - {fd};
          readFds := readFds + {fd};
        }
      }
    }

    /** Stores a response for `fd` and switches it from reading to writing. */
    method QueueResponse(fd: int, cr: ClientRequest, out: string)
      modifies this
      ensures Snapshot() == Respond(old(Snapshot()), fd, cr, out)
    {
      requests := requests[fd := cr];
      writeBuffer := writeBuffer[fd := out];
      bytesSent := bytesSent[fd := 0];
      readFds := readFds - {fd};
      writeFds := writeFds + {fd};
    }

    /** The request is complete: store prepare_response's answer, draining the body first for a 405. */
    method AnswerRequest(fd: int, cr: ClientRequest, server: Option<ServerSettings>, env: Env, reason: int -> string,
                         parse: string -> Request, input: seq<RecvResult>)
      returns (rest: seq<RecvResult>, halt: Option<Halt>)
      modifies this
      ensures Outcome(Snapshot(), rest, halt)
        == Answer(old(Snapshot()), fd, cr, PrepareOutcome(parse(cr.buffer), server, env, reason), input)
    {
      var prepared := PrepareOutcome(parse(cr.buffer), server, env, reason);
      rest, halt := input, None;
      match prepared
      case Reply(text) =>
        QueueResponse(fd, cr, text);
      case ReplyAfterDrain(text) =>
        var d := TryDrainAndAdjust(cr, text, input);
        QueueResponse(fd, d.request, d.response);
        rest := d.rest;
      case Exit(status) =>
        requests := requests[fd := cr];
        halt := Some(ExitWith(status));
      case Uncaught(_) =>
        requests := requests[fd := cr];
        halt := Some(Escaped);
    }

    /** What _handle_read does once its recv loop has stopped at `last`. */
    method FinishRead(fd: int, cr: ClientRequest, last: RecvResult, server: Option<ServerSettings>, env: Env,
                      reason: int -> string, parse: string -> Request, input: seq<RecvResult>)
      returns (rest: seq<RecvResult>, halt: Option<Halt>)
      modifies this
      ensures Outcome(Snapshot(), rest, halt)
        == Stopped(old(Snapshot()), fd, cr, last, PrepareOutcome(parse(cr.buffer), server, env, reason), input)
    {
      rest, halt := input, None;
      if last.Failed? {
        CleanupClient(fd);
      } else if last.WouldBlock? {
        requests := requests[fd := cr];
      } else if Complete(cr) {
        rest, halt := AnswerRequest(fd, cr, server, env, reason, parse, input);
      } else {
        QueueResponse(fd, cr, BAD_REQUEST_RESPONSE);
      }
    }

    /** _handle_read on the client's recv stream. */
    method HandleRead(fd: int, input: seq<RecvResult>, env: Env, reason: int -> string, parse: string -> Request)
      returns (rest: seq<RecvResult>, halt: Option<Halt>)
      modifies this
      ensures Outcome(Snapshot(), rest, halt) == ReadOutcome(old(Snapshot()), fd, input, env, reason, parse)
    {
      var server: Option<ServerSettings> := None;
      if fd in clientServer && clientServer[fd] in servers {
        server := Some(servers[clientServer[fd]]);
      }
      var cr := if fd in requests then requests[fd] else FreshRequest();
      var e := RecvLoop(cr, input, server);
      rest, halt := input[e.used..], None;
      match e.stop
      case StopTooLarge =>
        QueueResponse(fd, e.cr, PAYLOAD_TOO_LARGE_RESPONSE);
      case StopReady =>
        rest, halt := AnswerRequest(fd, e.cr, server, env, reason, parse, rest);
      case StopRecv(last) =>
        rest, halt := FinishRead(fd, e.cr, last, server, env, reason, parse, rest);
    }
  }
}
