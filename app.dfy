/**
 * The TCP client (internal/app): its tick dispatches on the area like the
 * serial one but treats every read error as fatal, so it keeps no session
 * state between ticks. Its `convert` is the same function as the serial
 * client's and is modelled once, by Convert.Convert.
 */
module App {
  import opened BoundedInts
  import opened Wrappers
  import opened Codec
  import opened Poll
  import Convert

  /**
   * One tick of the cron job: `rs` and `err` are what the read returned.
   * The events are those of TcpTick.
   */
  method Tick(cfg: ReadConfig, rs: array<byte>, err: Option<ReadError>) returns (events: seq<Event>)
    ensures events == TcpTick(cfg, rs[..], err)
  {
    var call := ReadCallFor(cfg.area);
    if call.None? {
      return [Fatal(NoFoundArea)];
    }
    events := [Issued(call.value, cfg.address, cfg.quantity)];
    if err.Some? {
      return events + [Fatal(ReadFault(err.value))];
    }
    var result := Convert.Convert(cfg.display, rs);
    if result.Failure? {
      events := events + [Fatal(ConvertFault(result.error))];
    } else {
      events := events + [Logged(result.value)];
    }
  }
}
