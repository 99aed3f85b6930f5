/**
 * The poll tick shared by the serial and the TCP client: which Modbus read a
 * configured area issues, how a read error is classified, and what one tick
 * does, written as functions over an abstract read reply.
 *
 * A tick is described by the events it causes, in order. The read reply
 * (`rs`, `err`) and the outcome of a reconnect's `Connect` are parameters:
 * the Modbus client, the handlers and their I/O are not modelled.
 * A handler is named by a number: getHandler creates handler 0 at start-up
 * and handler n + 1 on each reconnect.
 */
module Poll {
  import opened BoundedInts
  import opened Wrappers
  import opened Codec
  import Text

  /** The part of the configuration a tick reads. */
  datatype ReadConfig = ReadConfig(area: int, address: uint16, quantity: uint16, display: byte)

  /** The four read requests of the Modbus client. */
  datatype ReadCall = ReadCoils | ReadDiscreteInputs | ReadHoldingRegisters | ReadInputRegisters

  /** The request the tick's `switch area` issues; None is its default branch. */
  function ReadCallFor(area: int): Option<ReadCall>
  {
    if area == 1 then Some(ReadCoils)
    else if area == 2 then Some(ReadDiscreteInputs)
    else if area == 3 then Some(ReadHoldingRegisters)
    else if area == 4 then Some(ReadInputRegisters)
    else None
  }

  /**
   * The Modbus function code of each read request (Modbus Application
   * Protocol v1.1b3, sections 6.1 to 6.4).
   */
  function FunctionCode(call: ReadCall): (code: nat)
    ensures 1 <= code <= 4
  {
    match call
    case ReadCoils => 0x01
    case ReadDiscreteInputs => 0x02
    case ReadHoldingRegisters => 0x03
    case ReadInputRegisters => 0x04
  }

  /**
   * The configured area is the Modbus function code of the read it issues:
   * areas 1 to 4 are exactly the read function codes, and any other area
   * has no read.
   */
  lemma AreaIsFunctionCode(area: int)
    ensures ReadCallFor(area).Some? <==> 1 <= area <= 4
    ensures ReadCallFor(area).Some? ==> FunctionCode(ReadCallFor(area).value) == area
    ensures forall call :: ReadCallFor(FunctionCode(call)) == Some(call)
  {
  }

  /** A read error: io.EOF itself, or any other error with its message. */
  datatype ReadError = Eof | Failed(message: string)

  /** err.Error(); the message of io.EOF is "EOF". */
  function Message(e: ReadError): string
  {
    match e
    case Eof => "EOF"
    case Failed(m) => m
  }

  const TimeoutText: string := "timeout"
  const AbortedText: string := "An established connection was aborted by the software in your host machine"
  const ForciblyClosedText: string := "An existing connection was forcibly closed by the remote host"
  const BrokenPipeText: string := "broken pipe"

  /** The four branches of the serial tick's error handling. */
  datatype ErrorClass = Timeout | Aborted | EndOfStream | Unrecoverable

  /**
   * The serial tick's classification, tested in the source's order: a
   * substring "timeout" first, then the three connection-loss messages, then
   * identity with io.EOF (a Failed("EOF") is not io.EOF).
   */
  function Classify(e: ReadError): ErrorClass
  {
    var m := Message(e);
    if Text.Contains(m, TimeoutText) then Timeout
    else if Text.Contains(m, AbortedText) || Text.Contains(m, ForciblyClosedText) || Text.Contains(m, BrokenPipeText) then Aborted
    else if e == Eof then EndOfStream
    else Unrecoverable
  }

  /** The message of `e` names a lost connection. */
  ghost predicate NamesLostConnection(e: ReadError)
  {
    Text.Occurs(Message(e), AbortedText) || Text.Occurs(Message(e), ForciblyClosedText) || Text.Occurs(Message(e), BrokenPipeText)
  }

  /** Each class, stated by where the texts occur in the message. */
  lemma ClassifyIff(e: ReadError)
    ensures Classify(e) == Timeout <==> Text.Occurs(Message(e), TimeoutText)
    ensures Classify(e) == Aborted <==> !Text.Occurs(Message(e), TimeoutText) && NamesLostConnection(e)
    ensures Classify(e) == EndOfStream <==> e == Eof
    ensures Classify(e) == Unrecoverable <==>
      e.Failed? && !Text.Occurs(Message(e), TimeoutText) && !NamesLostConnection(e)
  {
    var m := Message(e);
    Text.ContainsIsOccurs(m, TimeoutText);
    Text.ContainsIsOccurs(m, AbortedText);
    Text.ContainsIsOccurs(m, ForciblyClosedText);
    Text.ContainsIsOccurs(m, BrokenPipeText);
  }

  /** Why a tick ends the process (log.Fatalln). */
  datatype Fault =
    | NoFoundArea              // the area has no read
    | ReadFault(readError: ReadError)
    | ConvertFault(convertError: ConvertError)

  /** What a tick does, in order. */
  datatype Event =
    | Issued(call: ReadCall, address: uint16, quantity: uint16)
    | Closed(handler: nat)                    // handler.Close()
    | Slept(ms: int)                          // time.Sleep(delay ms)
    | Reopened(handler: nat, connected: bool) // getHandler() and its Connect
    | Logged(sample: Sample)                  // "read result"
    | Fatal(fault: Fault)                     // log.Fatalln

  /** The serial session: the current handler and the handler the client wraps. */
  datatype Link = Link(handler: nat, client: nat)

  /** The client never wraps a handler newer than the current one. */
  predicate LinkValid(s: Link)
  {
    s.client <= s.handler
  }

  /** getHandler and Connect: the handler is a new one, the client follows it only on success. */
  function Reconnect(s: Link, connectOk: bool): Link
  {
    Link(s.handler + 1, if connectOk then s.handler + 1 else s.client)
  }

  /** The end of every tick that got a reply: convert, then log or die. */
  function Finish(display: byte, rs: seq<byte>): seq<Event>
  {
    match Decode(display, rs)
    case Success(x) => [Logged(x)]
    case Failure(e) => [Fatal(ConvertFault(e))]
  }

  /** The new session and the events of one serial tick, or of a part of it. */
  datatype Step = Step(link: Link, events: seq<Event>)

  /**
   * The serial tick's answer to a read error: a timeout closes the handler
   * in use, then it and the other recoverable errors sleep and reopen; any
   * other error is fatal.
   */
  function Recovery(delay: int, s: Link, e: ReadError, connectOk: bool): Step
  {
    var n := Reconnect(s, connectOk);
    match Classify(e)
    case Timeout => Step(n, [Closed(s.handler), Slept(delay), Reopened(n.handler, connectOk)])
    case Aborted => Step(n, [Slept(delay), Reopened(n.handler, connectOk)])
    case EndOfStream => Step(n, [Slept(delay), Reopened(n.handler, connectOk)])
    case Unrecoverable => Step(s, [Fatal(ReadFault(e))])
  }

  /**
   * One tick of the serial client: issue the read, recover from a timeout,
   * a lost connection or io.EOF, die on any other error, and convert the
   * reply.
   */
  function SerialTick(cfg: ReadConfig, delay: int, s: Link, rs: seq<byte>, err: Option<ReadError>, connectOk: bool): Step
  {
    match ReadCallFor(cfg.area)
    case None => Step(s, [Fatal(NoFoundArea)])
    case Some(call) =>
      var issued := Issued(call, cfg.address, cfg.quantity);
      if err.None? then Step(s, [issued] + Finish(cfg.display, rs))
      else if Classify(err.value) == Unrecoverable then Step(s, [issued, Fatal(ReadFault(err.value))])
      else
        var r := Recovery(delay, s, err.value, connectOk);
        Step(r.link, [issued] + r.events + Finish(cfg.display, rs))
  }

  /** One tick of the TCP client: issue the read, die on any error, convert the reply. */
  function TcpTick(cfg: ReadConfig, rs: seq<byte>, err: Option<ReadError>): seq<Event>
  {
    match ReadCallFor(cfg.area)
    case None => [Fatal(NoFoundArea)]
    case Some(call) =>
      [Issued(call, cfg.address, cfg.quantity)]
      + (if err.Some? then [Fatal(ReadFault(err.value))] else Finish(cfg.display, rs))
  }

  /** The read error is one the serial tick recovers from. */
  predicate Recovered(err: Option<ReadError>)
  {
    err.Some? && Classify(err.value) != Unrecoverable
  }

  /** A tick's events: a process that dies says so last, and only last. */
  predicate WellFormed(events: seq<Event>)
  {
    && |events| > 0
    && (events[|events| - 1].Logged? || events[|events| - 1].Fatal?)
    && (forall k :: 0 <= k < |events| - 1 ==> !events[k].Fatal? && !events[k].Logged?)
  }

  lemma FinishShape(display: byte, rs: seq<byte>)
    ensures |Finish(display, rs)| == 1
    ensures Finish(display, rs)[0].Fatal? <==> display > DoubleSwapped
    ensures Finish(display, rs)[0].Logged? ==> Decode(display, rs) == Success(Finish(display, rs)[0].sample)
  {
    DecodeTotal(display, rs);
  }

  /** The session invariant holds after every serial tick. */
  lemma SerialTickKeepsLink(cfg: ReadConfig, delay: int, s: Link, rs: seq<byte>, err: Option<ReadError>, connectOk: bool)
    requires LinkValid(s)
    ensures LinkValid(SerialTick(cfg, delay, s, rs, err, connectOk).link)
  {
  }

  /**
   * The session changes exactly when a recoverable error was read; then the
   * handler is a new one, and the client is replaced if and only if the
   * reconnect's Connect succeeded.
   */
  lemma SerialTickReconnects(cfg: ReadConfig, delay: int, s: Link, rs: seq<byte>, err: Option<ReadError>, connectOk: bool)
    requires LinkValid(s)
    ensures var t := SerialTick(cfg, delay, s, rs, err, connectOk).link;
      && (t != s <==> ReadCallFor(cfg.area).Some? && Recovered(err))
      && (t != s ==> t.handler == s.handler + 1 && (t.client == t.handler <==> connectOk) && (!connectOk ==> t.client == s.client))
  {
  }

  /**
   * The events of a serial tick are well formed; it dies if and only if the
   * area has no read, the error is unrecoverable, or the display has no
   * format; otherwise it logs the conversion of the reply.
   */
  lemma SerialTickOutcome(cfg: ReadConfig, delay: int, s: Link, rs: seq<byte>, err: Option<ReadError>, connectOk: bool)
    ensures var ev := SerialTick(cfg, delay, s, rs, err, connectOk).events;
      && WellFormed(ev)
      && (ev[|ev| - 1].Fatal? <==>
            ReadCallFor(cfg.area).None? || (err.Some? && !Recovered(err)) || cfg.display > DoubleSwapped)
      && (ev[|ev| - 1].Logged? ==> Decode(cfg.display, rs) == Success(ev[|ev| - 1].sample))
  {
    FinishShape(cfg.display, rs);
  }

  /** A tick closes at most once, and before it reopens. */
  lemma CloseOrder(cfg: ReadConfig, delay: int, s: Link, rs: seq<byte>, err: Option<ReadError>, connectOk: bool)
    ensures var ev := SerialTick(cfg, delay, s, rs, err, connectOk).events;
      && (forall j, k :: 0 <= j < |ev| && 0 <= k < |ev| && ev[j].Closed? && ev[k].Reopened? ==> j < k)
      && (forall j, k :: 0 <= j < |ev| && 0 <= k < |ev| && ev[j].Closed? && ev[k].Closed? ==> j == k)
  {
    FinishShape(cfg.display, rs);
  }

  /**
   * Only a timeout closes the handler, and it closes the handler in use,
   * once, before the new one is opened; a lost connection and io.EOF reopen
   * without closing.
   */
  lemma OnlyTimeoutCloses(cfg: ReadConfig, delay: int, s: Link, rs: seq<byte>, err: Option<ReadError>, connectOk: bool)
    ensures var ev := SerialTick(cfg, delay, s, rs, err, connectOk).events;
      && ((exists k :: 0 <= k < |ev| && ev[k].Closed?) <==>
            ReadCallFor(cfg.area).Some? && err.Some? && Text.Occurs(Message(err.value), TimeoutText))
      && (forall k :: 0 <= k < |ev| && ev[k].Closed? ==> ev[k].handler == s.handler)
      && (forall k :: 0 <= k < |ev| && ev[k].Reopened? ==> ev[k].handler == s.handler + 1)
      && (forall j, k :: 0 <= j < |ev| && 0 <= k < |ev| && ev[j].Closed? && ev[k].Reopened? ==> j < k)
      && (forall j, k :: 0 <= j < |ev| && 0 <= k < |ev| && ev[j].Closed? && ev[k].Closed? ==> j == k)
  {
    var ev := SerialTick(cfg, delay, s, rs, err, connectOk).events;
    FinishShape(cfg.display, rs);
    CloseOrder(cfg, delay, s, rs, err, connectOk);
    if ReadCallFor(cfg.area).Some? && err.Some? {
      Text.ContainsIsOccurs(Message(err.value), TimeoutText);
      if Classify(err.value) == Timeout {
        assert ev[1].Closed?;
      } else if Classify(err.value) == Unrecoverable {
        assert ev == [ev[0], Fatal(ReadFault(err.value))];
      } else {
        assert ev == [ev[0], Slept(delay), Reopened(s.handler + 1, connectOk), ev[3]];
      }
    }
  }

  /** With no read error the serial tick is the TCP tick and keeps its session. */
  lemma SerialAgreesWithTcp(cfg: ReadConfig, delay: int, s: Link, rs: seq<byte>, connectOk: bool)
    ensures SerialTick(cfg, delay, s, rs, None, connectOk) == Step(s, TcpTick(cfg, rs, None))
  {
  }

  /** The TCP tick dies on every read error, and otherwise as the serial tick does. */
  lemma TcpTickOutcome(cfg: ReadConfig, rs: seq<byte>, err: Option<ReadError>)
    ensures var ev := TcpTick(cfg, rs, err);
      && WellFormed(ev)
      && (ev[|ev| - 1].Fatal? <==> ReadCallFor(cfg.area).None? || err.Some? || cfg.display > DoubleSwapped)
      && (ev[|ev| - 1].Logged? ==> Decode(cfg.display, rs) == Success(ev[|ev| - 1].sample))
      && (err.Some? && ReadCallFor(cfg.area).Some? ==> ev == [Issued(ReadCallFor(cfg.area).value, cfg.address, cfg.quantity), Fatal(ReadFault(err.value))])
  {
    FinishShape(cfg.display, rs);
  }

  /**
   * After a recovered error the serial tick still converts the reply; with
   * the empty reply the Modbus client gives on error, it logs an empty
   * sample for every known display.
   */
  lemma RecoveredTickLogsEmpty(cfg: ReadConfig, delay: int, s: Link, err: Option<ReadError>, connectOk: bool)
    requires ReadCallFor(cfg.area).Some? && Recovered(err) && cfg.display <= DoubleSwapped
    ensures var ev := SerialTick(cfg, delay, s, [], err, connectOk).events;
      ev[|ev| - 1].Logged? && ev[|ev| - 1].sample.Length() == 0
  {
    FinishShape(cfg.display, []);
    DecodeTotal(cfg.display, []);
  }
}
