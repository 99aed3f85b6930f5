# modbus-client in Dafny

modbus-client is a command-line Modbus master with two clients, a serial one (`internal/rtu`) and a TCP one (`internal/app`). Each client polls one register area on a cron schedule. A tick issues the read the configured `area` names, decodes the reply bytes into one of ten display formats (`convert`), and logs the result. The serial client also recovers from lost connections by replacing its handler and client. `Write` sends a list of integers as big-endian 16-bit words to coils or holding registers.

This project models that core and proves properties of it:

- **`BoundedInts`, `Wrappers`**: Go's fixed-width integer types as subset types, and Option/Result.
- **`Text`**: the three string operations `convert` and the tick rely on:
  - `biu.ToBinaryString` of a byte;
  - `hex.EncodeToString` of a byte pair;
  - `strings.Contains`, proved equal to "the text occurs at some position".
- **`Codec`**: the pure specification of `convert`.
  - `Decode` maps a display code and a block of bytes to a `Sample` or an error.
  - Lemmas cover element by element what each display yields, what happens to trailing bytes, which displays fail, and the word-order symmetries between the plain and swapped formats.
- **`Convert`**: the imperative `convert` itself.
  - Each case fills a result array in a `for` loop. Binary converts each byte directly.
  - The other cases copy each group into a reused scratch buffer, in their case's byte order. HEX hex-encodes that buffer, and the numeric cases read it big-endian as `binary.Read` does.
  - Each loop is proved to compute its `Codec` function. `Convert.Convert` dispatches on the display.
  - `convert` appears twice in the repository (internal/rtu/client.go:234-387 and internal/app/client.go:116-269). The two copies are the same case for case, so both clients use this one model. The per-format element lemmas (`BinaryElements` to `DoubleElements`) and `DecodeTotal` cite the TCP copy's lines. Every other `Codec` and `Convert` row cites the serial copy's lines; the cited cases are the same in both copies.
- **`Poll`**: the tick as functions over an abstract read reply.
  - Which read an area issues (areas 1 to 4 are exactly the Modbus read function codes).
  - How the serial tick classifies an error: timeout, lost connection, io.EOF, or fatal.
  - `SerialTick` and `TcpTick`, describing a tick by the events it causes, in order.
- **`Rtu`**: the serial client.
  - `Poller` is a class holding the captured `handler` and `client` variables. Its `Tick` method is proved to produce `SerialTick`'s events and new state.
  - The write path: truncating values to `uint16`, big-endian encoding (proved to decode back), and `Write`.
- **`App`**: the TCP client's tick, proved to be `TcpTick`.

Handlers are named by numbers. Start-up creates handler 0, and each reconnect creates the next one. A session (`Poll.Link`) is the current handler and the handler the client wraps.

Floats are kept as their bit patterns. Go reads a float32 as `math.Float32frombits` of the big-endian `uint32` of the four arranged bytes. The model holds that `uint32` (a `uint64` for float64), which is the value `math.Float32bits` would return. No IEEE-754 arithmetic is modelled.

## Model

| member | source | states |
|---|---|---|
| Text.BinaryString | internal/rtu/client.go:240 | biu.ToBinaryString gives exactly eight '0'/'1' characters whose binary value is the byte |
| Text.HexString | internal/rtu/client.go:247-249 | hex.EncodeToString of a pair gives four lower-case hex digits whose value is hi*256+lo |
| Text.ContainsIsOccurs | internal/rtu/client.go:102 | strings.Contains is true iff the substring occurs at some position of the message |
| Codec.DecodeTotal | internal/app/client.go:116-269 | every display 0..9 decodes every block with no error, into len(data)/width elements (trailing bytes ignored); any other display is "not found data type" |
| Codec.DecodeEmpty | internal/rtu/client.go:234-236 | an empty or nil block gives an empty result for every known display |
| Codec.BinaryElements | internal/app/client.go:119-124 | Binary gives one string per byte, eight '0'/'1' digits reading back as that byte |
| Codec.HexElements | internal/app/client.go:125-133 | HEX gives len/2 strings, each four lower-case hex digits of data[2i], data[2i+1] in natural order |
| Codec.UnsignedElements | internal/app/client.go:134-147 | UnsignedDecimal gives len/2 words, element i = data[2i]*256 + data[2i+1] |
| Codec.IntegerIsSignedWord | internal/app/client.go:148-161 | Integer element i lies in [-32768, 32767]; it is the UnsignedDecimal word, minus 65536 when that is at least 32768, and is congruent to it modulo 65536 |
| Codec.LongElements | internal/app/client.go:162-193 | LongInteger reads group i as [d2,d3,d0,d1], LongSwapped as [d0,d1,d2,d3]; both give len/4 elements |
| Codec.FloatElements | internal/app/client.go:194-225 | Float's bit pattern i is the big-endian uint32 of [d2,d3,d0,d1], FloatSwapped's of [d0..d3]; both give len/4 elements |
| Codec.DoubleElements | internal/app/client.go:226-265 | Double's bit pattern i is the big-endian uint64 of [d6,d7,d4,d5,d2,d3,d0,d1], DoubleSwapped's of [d0..d7]; both give len/8 elements |
| Codec.FloatSharesLongBits | internal/rtu/client.go:280-343 | Float (FloatSwapped) element i has the bit pattern of LongInteger (LongSwapped) element i: the long modulo 2^32 |
| Codec.SwapHalvesInvolution | internal/rtu/client.go:284-287 | exchanging the 16-bit halves of every 4-byte group twice gives the block back |
| Codec.LongWordSwap | internal/rtu/client.go:280-311 | LongInteger of a block equals LongSwapped of the half-swapped block, and the other way round |
| Codec.FloatWordSwap | internal/rtu/client.go:312-343 | Float of a block equals FloatSwapped of the half-swapped block, and the other way round |
| Codec.ReverseWordsInvolution | internal/rtu/client.go:348-355 | reversing the four words of every 8-byte group twice gives the block back |
| Codec.DoubleWordReversal | internal/rtu/client.go:344-383 | Double of a block equals DoubleSwapped of the word-reversed block, and the other way round |
| Codec.HexVector | internal/rtu/client.go:243-251 | HEX of 00 0A is ["000a"] |
| Codec.BinaryVector | internal/rtu/client.go:237-242 | Binary of 05 is ["00000101"] |
| Codec.UnsignedVector | internal/rtu/client.go:252-265 | UnsignedDecimal of 00 0A is [10] |
| Codec.IntegerVector | internal/rtu/client.go:266-279 | Integer of FF F6 is [-10] |
| Codec.FloatVector | internal/rtu/client.go:312-327 | Float of 3D 1A 59 DF has the bit pattern 0x59DF3D1A |
| Codec.TwoWordVector | internal/rtu/client.go:252-265 | UnsignedDecimal of 59 DF 3D 1A is the two words 0x59DF and 0x3D1A |
| Convert.Fill4 | internal/rtu/client.go:284-287 | the scratch buffer holds group i arranged as the case asks ([d2,d3,d0,d1] or natural order) |
| Convert.Fill8 | internal/rtu/client.go:348-355 | the scratch buffer holds group i arranged as [d6,d7,d4,d5,d2,d3,d0,d1] or in natural order |
| Convert.DecodeBinary | internal/rtu/client.go:237-242 | the Binary loop computes Codec's binary strings |
| Convert.DecodeHex | internal/rtu/client.go:243-251 | the HEX loop computes Codec's hex strings |
| Convert.DecodeUnsigned | internal/rtu/client.go:252-265 | the UnsignedDecimal loop computes Codec's words; binary.Read never fails on the full buffer |
| Convert.DecodeInteger | internal/rtu/client.go:266-279 | the Integer loop computes Codec's signed words |
| Convert.DecodeLong | internal/rtu/client.go:280-311 | the LongInteger / LongSwapped loops compute Codec's longs for their arrangement |
| Convert.DecodeFloat | internal/rtu/client.go:312-343 | the Float / FloatSwapped loops compute Codec's float32 bit patterns |
| Convert.DecodeDouble | internal/rtu/client.go:344-383 | the Double / DoubleSwapped loops compute Codec's float64 bit patterns |
| Convert.Convert | internal/rtu/client.go:234-387 | convert returns exactly Codec.Decode of the block, for both clients |
| Poll.AreaIsFunctionCode | internal/rtu/client.go:88-98 | a read is issued iff 1 <= area <= 4, and the area is the Modbus function code of that read |
| Poll.ClassifyIff | internal/rtu/client.go:101-139 | timeout iff "timeout" occurs in the message; lost connection iff not that but one of the three messages occurs; EOF iff the error is io.EOF itself; fatal otherwise |
| Poll.FinishShape | internal/rtu/client.go:141-145 | the end of a tick is one event: a fatal one iff the display is unknown, otherwise the log of Decode's result |
| Poll.SerialTickKeepsLink | internal/rtu/client.go:101-139 | the client never wraps a handler newer than the current one, after any tick |
| Poll.SerialTickReconnects | internal/rtu/client.go:108-135 | the session changes iff a recoverable error was read; then the handler is the next one (handler + 1), and the client is replaced iff Connect succeeded |
| Poll.SerialTickOutcome | internal/rtu/client.go:86-145 | a serial tick ends in one log or fatal event; it is fatal iff the area has no read, the error is unrecoverable, or the display is unknown; a log carries Decode of the reply |
| Poll.OnlyTimeoutCloses | internal/rtu/client.go:102-135 | a handler is closed iff the error message contains "timeout"; it is the handler in use, it is closed at most once and before the reopen, and the reopened handler is the next one |
| Poll.CloseOrder | internal/rtu/client.go:102-115 | within a tick, at most one handler is closed, and only before the new handler is opened |
| Poll.RecoveredTickLogsEmpty | internal/rtu/client.go:101-145 | after a recovered error the tick still converts the (empty) reply and logs an empty result |
| Poll.SerialAgreesWithTcp | internal/app/client.go:84-104 | with no read error the serial tick does exactly what the TCP tick does and keeps its session |
| Poll.TcpTickOutcome | internal/app/client.go:84-104 | a TCP tick ends in one log or fatal event; any read error is fatal right after the read, with no reconnect |
| Rtu.Poller.constructor | internal/rtu/client.go:71-81 | start-up: handler 0, the client wraps it, and a failed Connect halts |
| Rtu.Poller.Reopen | internal/rtu/client.go:108-115 | sleep, then a new handler; the client follows it iff Connect succeeded |
| Rtu.Poller.Recover | internal/rtu/client.go:101-139 | the error block produces Poll.Recovery's events and session, and is fatal iff the error is unrecoverable |
| Rtu.Poller.Tick | internal/rtu/client.go:86-145 | the tick's events and new session are SerialTick's, and the poller halts iff the tick ends in a fatal event |
| Rtu.Report | internal/rtu/client.go:141-145 | converting the reply yields Poll.Finish's event |
| Rtu.ToUint16 | internal/rtu/client.go:211 | uint16(d) is congruent to d modulo 65536, and is d itself when d already fits |
| Rtu.Truncate | internal/rtu/client.go:208-212 | the append loop yields one uint16(d) per value, in order |
| Rtu.BigEndian | internal/rtu/client.go:213 | binary.Write of n words gives 2n bytes |
| Rtu.PayloadRoundTrip | internal/rtu/client.go:208-216 | the payload read back as UnsignedDecimal is exactly the words it was written from |
| Rtu.WriteAreas | internal/rtu/client.go:218-225 | a write is sent iff the area is 1 or 3; area 1 goes to Write Multiple Coils (function code 0x0F), area 3 to Write Multiple Registers (0x10) |
| Rtu.Write | internal/rtu/client.go:182-232 | Write is fatal on a failed Connect or an area other than 1/3; otherwise it sends a 2n-byte payload whose word i is uint16(data[i]), and dies on the write error or reports the reply |
| App.Tick | internal/app/client.go:81-105 | the TCP tick's events are TcpTick's |

## Left out

- Cron scheduling and the skip-if-still-running middleware (internal/rtu/client.go:82-85). These are library concurrency behaviour; a tick is modelled as one call of `Tick`.
- Flag and environment configuration (pflag/viper) and `getHandler`'s field wiring. The model takes the configuration as values. Its `uint16` and `uint8` casts of address, length and display are given already applied, as the types of `Poll.ReadConfig`.
- The goburrow Modbus client and handlers: framing, CRC, serial and TCP I/O, `Connect` and `Close`.
  - A read's reply and error are parameters of a tick, as is the outcome of a reconnect's `Connect`.
  - `Close` is an event whose own error is only logged in the source, so it has no effect on the model.
  - On a read error the Modbus client returns no bytes. The model leaves the reply as a parameter: the tick converts whatever it is given, as the source does.
- Byte-level string search: Go's `strings.Contains` compares bytes, while `Text.Contains` compares characters. The four texts searched for are ASCII, so a match of one of them is the same match either way; the model does not represent invalid UTF-8 in messages.
- Start-up Connect failures: the TCP client's fatal first Connect (internal/app/client.go:68-71) is not modelled, and the serial client's appears only as `halted` in `Rtu.Poller.constructor`, with no fault event.
- IEEE-754 semantics: floats are bit patterns held as `uint32`/`uint64` values, not as `bv32`/`bv64` and not as Go float values.
- `time.Sleep` timing, log text and the final `log.Printf` of results. A log line is the `Logged` event carrying the decoded sample.
- Signal handling, `os.Exit`, and main.go, which only connects, polls and prints raw bytes.
- The deferred `handler.Close()` of `Run` (internal/rtu/client.go:76-80) and of `Write` (internal/rtu/client.go:202-206). `log.Fatalln` skips deferred calls, so `Write`'s runs only on its success path, after the reply is reported; no event records it.
- The dead error branches:
  - `binary.Read` cannot fail on a scratch buffer of exactly the element's size; the model proves this branch unreachable.
  - `binary.Write` of a `[]uint16` into a `bytes.Buffer` cannot fail.
- `Rtu.Write`: the handler the serial package's `Write` builds is a TCP handler configured from the "host" key, which the serial package never declares as a flag. The model treats the handler as abstract and does not capture which transport or address is used. Nothing checks that `length` matches the number of values, and the model passes `length` through unchanged.
- internal/tcp/client_test.go tests a `convert` of a package `tcp` that is not part of this model. It expects no result for UnsignedDecimal on 59 DF 3D 1A, but the `convert` modelled here returns the two words 0x59DF and 0x3D1A (`Codec.TwoWordVector`).
- Behaviour of the code that the model keeps as written:
  - there is no error for a block whose length is not a multiple of the element width; trailing bytes are dropped;
  - a lost connection and io.EOF reopen without closing the old handler; only a timeout closes it;
  - an io.EOF is recognised by identity, so an error whose message is merely "EOF" is fatal.
