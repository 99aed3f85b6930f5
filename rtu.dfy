/**
 * The serial client (internal/rtu): the poller whose tick reads, recovers
 * from lost connections by replacing its handler and client, and converts
 * the reply; and Write, which encodes the configured values as big-endian
 * 16-bit words and sends them with a multiple-coils or multiple-registers
 * request.
 */
module Rtu {
  import opened BoundedInts
  import opened Wrappers
  import opened Codec
  import opened Poll
  import Convert
  import Text

  /**
   * The state the tick closure of `Run` captures: the `handler` and
   * `client` variables. `halted` is set once a log.Fatalln has ended the
   * process; no tick runs after it.
   */
  class Poller {
    const cfg: ReadConfig
    const delay: int
    var handler: nat
    var client: nat
    var halted: bool

    predicate Valid()
      reads this
    {
      LinkValid(State())
    }

    function State(): Link
      reads this
    {
      Link(handler, client)
    }

    /**
     * Start-up: handler 0 is created and connected, and the client wraps it;
     * a failed Connect is fatal.
     */
    constructor(cfg: ReadConfig, delay: int, connectOk: bool)
      ensures Valid()
      ensures this.cfg == cfg && this.delay == delay
      ensures State() == Link(0, 0)
      ensures halted == !connectOk
    {
      this.cfg := cfg;
      this.delay := delay;
      handler := 0;
      client := 0;
      halted := !connectOk;
    }

    /** time.Sleep, then `handler = getHandler()`, and `client` follows it if Connect succeeded. */
    method Reopen(connectOk: bool) returns (events: seq<Event>)
      modifies this
      ensures State() == Reconnect(old(State()), connectOk)
      ensures events == [Slept(delay), Reopened(handler, connectOk)]
      ensures halted == old(halted)
    {
      handler := handler + 1;
      if connectOk {
        client := handler;
      }
      events := [Slept(delay), Reopened(handler, connectOk)];
    }

    /**
     * The tick's `if err != nil` block: the events and the new session are
     * those of Recovery; `fatal` reports the log.Fatalln branch.
     */
    method Recover(e: ReadError, connectOk: bool) returns (events: seq<Event>, fatal: bool)
      modifies this
      ensures fatal <==> Classify(e) == Unrecoverable
      ensures State() == Recovery(delay, old(State()), e, connectOk).link
      ensures events == Recovery(delay, old(State()), e, connectOk).events
      ensures halted == old(halted)
    {
      var m := Message(e);
      fatal := false;
      if Text.Contains(m, TimeoutText) {
        var closed := handler;
        var reopened := Reopen(connectOk);
        events := [Closed(closed)] + reopened;
      } else if Text.Contains(m, AbortedText) || Text.Contains(m, ForciblyClosedText) || Text.Contains(m, BrokenPipeText) {
        events := Reopen(connectOk);
      } else if e == Eof {
        events := Reopen(connectOk);
      } else {
        events := [Fatal(ReadFault(e))];
        fatal := true;
      }
    }

    /**
     * One tick of the cron job: `rs` and `err` are what the read returned
     * and `connectOk` what a reconnect's Connect would return. The new
     * session and the tick's events are those of SerialTick, and the
     * process ends exactly when the tick ends in a fatal event.
     */
    method Tick(rs: array<byte>, err: Option<ReadError>, connectOk: bool) returns (events: seq<Event>)
      requires Valid() && !halted
      modifies this
      ensures Valid()
      ensures State() == SerialTick(cfg, delay, old(State()), rs[..], err, connectOk).link
      ensures events == SerialTick(cfg, delay, old(State()), rs[..], err, connectOk).events
      ensures halted <==> events[|events| - 1].Fatal?
    {
      var call := ReadCallFor(cfg.area);
      if call.None? {
        events := [Fatal(NoFoundArea)];
        halted := true;
        return;
      }
      events := [Issued(call.value, cfg.address, cfg.quantity)];
      if err.Some? {
        var recovery, fatal := Recover(err.value, connectOk);
        events := events + recovery;
        if fatal {
          halted := true;
          return;
        }
      }
      var finish := Report(cfg.display, rs);
      events := events + finish;
      halted := finish[0].Fatal?;
    }
  }

  /** The end of a tick: convert the reply, then log the result or die. */
  method Report(display: byte, rs: array<byte>) returns (events: seq<Event>)
    ensures events == Finish(display, rs[..])
  {
    var result := Convert.Convert(display, rs);
    if result.Failure? {
      events := [Fatal(ConvertFault(result.error))];
    } else {
      events := [Logged(result.value)];
    }
  }

  // ---- Write ----

  /** Go's conversion uint16(d): the low 16 bits of the two's-complement value. */
  function ToUint16(d: int): (u: uint16)
    ensures (d - u) % 0x1_0000 == 0
    ensures 0 <= d < 0x1_0000 ==> u == d
  {
    d % 0x1_0000
  }

  /** The loop that appends uint16(d) for every configured value. */
  method Truncate(data: seq<int>) returns (uint16s: seq<uint16>)
    ensures |uint16s| == |data|
    ensures forall i :: 0 <= i < |data| ==> uint16s[i] == ToUint16(data[i])
  {
    uint16s := [];
    for i := 0 to |data|
      invariant |uint16s| == i
      invariant forall k :: 0 <= k < i ==> uint16s[k] == ToUint16(data[k])
    {
      uint16s := uint16s + [ToUint16(data[i])];
    }
  }

  /** binary.Write of a []uint16 in big-endian order: the high byte of every word first. */
  function BigEndian(words: seq<uint16>): (p: seq<byte>)
    ensures |p| == 2 * |words|
  {
    if |words| == 0 then []
    else [words[0] / 0x100, words[0] % 0x100] + BigEndian(words[1..])
  }

  lemma {:induction false} BigEndianAt(words: seq<uint16>, i: nat)
    requires i < |words|
    ensures BigEndian(words)[2 * i] == words[i] / 0x100
    ensures BigEndian(words)[2 * i + 1] == words[i] % 0x100
    decreases i
  {
    if i > 0 {
      BigEndianAt(words[1..], i - 1);
      assert BigEndian(words) == [words[0] / 0x100, words[0] % 0x100] + BigEndian(words[1..]);
    }
  }

  /**
   * The payload decodes back: reading it as UnsignedDecimal gives the
   * words it was written from, so the device receives exactly the
   * truncated values.
   */
  lemma PayloadRoundTrip(words: seq<uint16>)
    ensures Decode(UnsignedDecimal, BigEndian(words)) == Success(Uint16s(words))
  {
    var p := BigEndian(words);
    forall i | 0 <= i < |words|
      ensures Uint16Of(p[2 * i], p[2 * i + 1]) == words[i]
    {
      BigEndianAt(words, i);
    }
    assert Words(p) == words;
  }

  /** The two write requests of the Modbus client. */
  datatype WriteCall = WriteMultipleCoils | WriteMultipleRegisters

  /** Write's `switch area`: 1 writes coils, 3 writes registers, anything else has no write. */
  function WriteCallFor(area: int): (c: Option<WriteCall>)
  {
    if area == 1 then Some(WriteMultipleCoils)
    else if area == 3 then Some(WriteMultipleRegisters)
    else None
  }

  /**
   * The Modbus function code of each write request (Modbus Application
   * Protocol v1.1b3, sections 6.11 and 6.12).
   */
  function WriteFunctionCode(call: WriteCall): (code: nat)
    ensures code == 0x0F || code == 0x10
  {
    match call
    case WriteMultipleCoils => 0x0F
    case WriteMultipleRegisters => 0x10
  }

  /** Area 1 and area 3 are the only writable areas, and they go to different requests. */
  lemma WriteAreas(area: int)
    ensures WriteCallFor(area).Some? <==> area == 1 || area == 3
    ensures area == 1 ==> WriteFunctionCode(WriteCallFor(area).value) == 0x0F
    ensures area == 3 ==> WriteFunctionCode(WriteCallFor(area).value) == 0x10
  {
  }

  /** Why Write ends the process (log.Fatalln). */
  datatype WriteFault = NoConnection | NoWriteArea | WriteFailed(message: string)

  /** What Write does, in order. */
  datatype WriteEvent =
    | Requested(call: WriteCall, address: uint16, quantity: uint16, payload: seq<byte>)
    | Reported(reply: seq<byte>)      // "write result"
    | Died(fault: WriteFault)          // log.Fatalln

  /**
   * Write: connect (fatal on failure), encode every value as uint16(d) in
   * big-endian order, send it with the request the area names (fatal for
   * any other area) and report the reply or die with the write error.
   * `connectOk`, `err` and `reply` are what Connect and the request return.
   */
  method Write(area: int, address: uint16, length: uint16, data: seq<int>, connectOk: bool, err: Option<string>, reply: seq<byte>)
    returns (events: seq<WriteEvent>)
    ensures !connectOk ==> events == [Died(NoConnection)]
    ensures connectOk && WriteCallFor(area).None? ==> events == [Died(NoWriteArea)]
    ensures connectOk && WriteCallFor(area).Some? ==>
      && |events| == 2
      && events[0].Requested?
      && events[0].call == WriteCallFor(area).value
      && events[0].address == address && events[0].quantity == length
      && |events[0].payload| == 2 * |data|
      && (forall i :: 0 <= i < |data| ==>
            Uint16Of(events[0].payload[2 * i], events[0].payload[2 * i + 1]) == ToUint16(data[i]))
      && events[1] == (if err.Some? then Died(WriteFailed(err.value)) else Reported(reply))
  {
    if !connectOk {
      return [Died(NoConnection)];
    }
    var uint16s := Truncate(data);
    var payload := BigEndian(uint16s);
    forall i | 0 <= i < |data|
      ensures Uint16Of(payload[2 * i], payload[2 * i + 1]) == ToUint16(data[i])
    {
      BigEndianAt(uint16s, i);
    }
    var call := WriteCallFor(area);
    if call.None? {
      return [Died(NoWriteArea)];
    }
    events := [Requested(call.value, address, length, payload)];
    if err.Some? {
      events := events + [Died(WriteFailed(err.value))];
    } else {
      events := events + [Reported(reply)];
    }
  }
}
