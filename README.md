# Hacklet dongle driver, modelled in Dafny

This project models `Hacklet::Dongle` (`lib/hacklet/dongle.rb`), the driver for a
serial dongle that manages Hacklet power outlets. The driver does three things:

- It opens a session. It assigns `@serial`, runs the fixed boot exchange (boot,
  boot confirm, lock), yields to the caller's block, and closes the port in an
  `ensure`.
- It guards its two public operations, `select_network` and
  `request_samples`, with `require_session`.
- It frames the variable-length samples reply. A 4-byte header is read, split
  on whitespace, and token 3 is parsed as hexadecimal, plus one; that many more
  bytes are then read.

Files:

- `framing.dfy` (module `Framing`) holds the pure parts: Ruby's awk-style
  `split(' ')`, `String#to_i(16)` on a token, `unpack('H2' * n)`, and the
  framing rule `RemainingBytes`.
- `protocol.dfy` (module `Protocol`) defines the commands, the replies and the
  events seen on the port. It models the serial port as a value (`Link`) and
  `@serial` as `Serial` (`Unset` for nil, or `Attached` to a port). It gives
  one specification function per driver operation.
- `dongle.dfy` (module `Hacklet`) holds class `Dongle`, whose field `serial`
  is `@serial`. Its methods transmit, receive and test that field in place, and
  each is proved to follow its specification function. Class `Transport`
  stands in for the serial port. It delivers the bytes queued in `incoming`,
  accepts `writesLeft` more writes before a write fails, and records every call
  in a ghost `trace`.
- `session_properties.dfy` (module `SessionProperties`) proves what the driver
  promises: the boot exchange runs in order, the port is closed exactly once,
  no I/O happens when the guard fails, and reads happen in order during framing.

A read either returns exactly the requested bytes or fails. The trace records
every call the driver makes on the port, including calls that fail. The
caller's block is a script of steps (`SelectNetwork`, `RequestSamples`,
`Raise`). It runs until its first failure, and that failure propagates out of
`open_session`.

### Behaviour of the code as written

- The samples header is 4 bytes (`receive(4)`, `lib/hacklet/dongle.rb:59`). A
  4-byte string holds at most two whitespace-separated tokens, so
  `split(' ')[3]` is always nil, and `nil.to_i(16)` raises. As written,
  `request_samples` therefore never returns a reply: it fails after reading the
  header. This is proved in `FourByteHeaderHasNoLengthToken`,
  `RequestSamplesEvents` and `RequestSamplesNeverSucceeds`.
- The framing rule itself is modelled over an arbitrary header
  (`RemainingBytes`, `FrameSpec`). For example, the 11-byte header text
  `"00 00 00 0A"` declares 0x0A, so 11 more bytes would be read
  (`DeclaredLengthExample`).
- A length token that is not hexadecimal is not rejected: `to_i(16)` gives 0
  for it, and one more byte is read (`NonHexLengthTokenReadsOneByte`).
- In this model, decoding never fails within a session. That follows from the
  transport abstraction listed under "Left out": a read either delivers exactly
  the requested bytes or fails. The real `@serial.read(n)`
  (`lib/hacklet/dongle.rb:108`) can return fewer bytes, or nil. In the model,
  decoding can fail only when no port is set and `receive` returns its four
  zero bytes (`BootWithoutPort`). No public call reaches that path. Boot and the
  other private operations run only after `open_session` assigns `@serial`
  (`lib/hacklet/dongle.rb:18`). The public operations stop at
  `require_session` first (`lib/hacklet/dongle.rb:121-123`).

## Model

| member | source | states |
|---|---|---|
| `Framing.Split` | lib/hacklet/dongle.rb:60 | every token of `split(' ')` is non-empty and contains no whitespace; `SplitSkipsSpace`, `SplitTokenThenSpace` and `SplitJoin` pin down which tokens it returns |
| `Framing.SplitSkipsSpace` | lib/hacklet/dongle.rb:60 | leading whitespace of any length and kind adds no token: `Split(ws + s) == Split(s)` |
| `Framing.SplitTokenThenSpace` | lib/hacklet/dongle.rb:60 | a token followed by any non-empty whitespace run is split off whole, and the run counts as one separator: `Split(t + ws + s) == [t] + Split(s)` |
| `Framing.SplitJoin` | lib/hacklet/dongle.rb:60 | splitting single-space-joined well-formed tokens gives back exactly those tokens |
| `Framing.SplitBound` | lib/hacklet/dongle.rb:60 | a string of length m splits into at most (m + 1) / 2 tokens |
| `Framing.HexToInt` | lib/hacklet/dongle.rb:60 | `to_i(16)` of a token with no leading hex digit is 0, not an error |
| `Framing.HexToIntOfDigits` | lib/hacklet/dongle.rb:60 | `to_i(16)` reads the leading hex digits and stops at the first non-digit |
| `Framing.HexChar` | lib/hacklet/dongle.rb:118 | the digit `unpack('H2')` writes for a nibble is a hex digit that parses back to that nibble |
| `Framing.Unpack` | lib/hacklet/dongle.rb:117-119 | one two-hex-digit string per byte, so the result is as long as the message |
| `Framing.UnpackRoundTrip` | lib/hacklet/dongle.rb:117-119 | each pair `unpack` renders parses back with `to_i(16)` to the byte it renders |
| `Framing.RemainingBytes` | lib/hacklet/dongle.rb:60 | when token 3 exists, at least one more byte is always read (HexToInt is unsigned; see Left out) |
| `Framing.RemainingBytesOfTokens` | lib/hacklet/dongle.rb:59-60 | a header of space-separated tokens frames by `to_i(16)` of its fourth token plus one, and has no length when it has fewer than four tokens |
| `Framing.FourByteHeaderHasNoLengthToken` | lib/hacklet/dongle.rb:59-60 | a 4-byte header has at most two tokens, so it never yields a remaining count |
| `Framing.NonHexLengthTokenReadsOneByte` | lib/hacklet/dongle.rb:60 | a fourth token without leading hex digits is accepted and gives a count of 1 |
| `Framing.DeclaredLengthExample` | lib/hacklet/dongle.rb:60 | the header text "00 00 00 0A" gives 0x0A + 1 = 11 remaining bytes |
| `Protocol.Decode` | lib/hacklet/dongle.rb:45 | `X.read(bytes)` succeeds exactly when the bytes cover the record (the samples record always), keeps the record's leading bytes, and otherwise fails with DecodeFailure |
| `Protocol.RunBlockSpec` | lib/hacklet/dongle.rb:27 | the caller's block never removes the port from the driver |
| `Hacklet.Dongle.constructor` | lib/hacklet/dongle.rb:8-10 | a new driver has no port (`@serial` is nil) |
| `Hacklet.Dongle.OpenSession` | lib/hacklet/dongle.rb:17-31 | assigns the port to `serial`; the port's new state and the result are those of `OpenSessionSpec` (boot, block, close) |
| `Hacklet.Dongle.RunBlock` | lib/hacklet/dongle.rb:27 | the loop over the caller's steps leaves the port and returns the result that `RunBlockSpec` gives |
| `Hacklet.Dongle.PerformStep` | lib/hacklet/dongle.rb:27 | one step of the block has the effect and result of `StepSpec` |
| `Hacklet.Dongle.SelectNetwork` | lib/hacklet/dongle.rb:41-46 | new port state and result are `SelectNetworkSpec` of the old state: guard, then one exchange |
| `Hacklet.Dongle.RequestSamples` | lib/hacklet/dongle.rb:54-63 | new port state and result are `RequestSamplesSpec` of the old state: guard, request, acknowledgement, header, framed remainder |
| `Hacklet.Dongle.Boot` | lib/hacklet/dongle.rb:76-79 | port state and result follow `BootSpec`: BootRequest, then a 27-byte read |
| `Hacklet.Dongle.BootConfirm` | lib/hacklet/dongle.rb:86-89 | port state and result follow `BootConfirmSpec`: BootConfirmRequest, then a 6-byte read |
| `Hacklet.Dongle.LockNetwork` | lib/hacklet/dongle.rb:96-99 | port state and result follow `LockNetworkSpec`: LockRequest, then a 6-byte read |
| `Hacklet.Dongle.Transmit` | lib/hacklet/dongle.rb:101-104 | writes only when a port is set, as `TransmitSpec` says |
| `Hacklet.Dongle.Receive` | lib/hacklet/dongle.rb:106-115 | reads from the port when one is set, else returns four zero bytes, as `ReceiveSpec` says |
| `Hacklet.Dongle.RequireSession` | lib/hacklet/dongle.rb:121-123 | passes exactly when a port is set and not closed, else fails with SessionNotOpen |
| `Hacklet.Transport.Write` | lib/hacklet/dongle.rb:103 | a write is recorded, and succeeds exactly when the port is open and still accepts writes |
| `Hacklet.Transport.Read` | lib/hacklet/dongle.rb:108 | a read is recorded, and delivers exactly the next n queued bytes when the port is open and has them |
| `Hacklet.Transport.Close` | lib/hacklet/dongle.rb:29 | closing marks the port closed and records one Close |
| `SessionProperties.ExchangeOutcome` | lib/hacklet/dongle.rb:76-99 | a fixed-length exchange writes then reads the record's length, and fails only with TransportFailure when the port fails |
| `SessionProperties.BootSequenceOutcome` | lib/hacklet/dongle.rb:20-26 | boot writes BootRequest, reads 27, writes BootConfirmRequest, reads 6, writes LockRequest, reads 6, in order; it succeeds exactly when the port takes three writes and 39 bytes, and otherwise stops after a leading part of that order |
| `SessionProperties.RequestSamplesExtends` | lib/hacklet/dongle.rb:54-63 | request_samples neither closes nor removes the port and adds no Close |
| `SessionProperties.BlockExtends` | lib/hacklet/dongle.rb:27 | whatever steps the block takes, the port stays attached and open, and no Close is added |
| `SessionProperties.OpenSessionAdds` | lib/hacklet/dongle.rb:18-30 | open_session adds the boot and block events with no Close among them, then exactly one Close |
| `SessionProperties.OpenSessionClosesOnce` | lib/hacklet/dongle.rb:18-30 | on every exit (a failed boot step, a raising block, a normal return) the port ends closed, its last event is Close, and exactly one Close was added |
| `SessionProperties.OpenSessionOrder` | lib/hacklet/dongle.rb:19-27 | when the boot completes its six events come first; otherwise only a leading part of them happens, the block never runs, and the result is TransportFailure |
| `SessionProperties.GuardStopsBeforeIo` | lib/hacklet/dongle.rb:121-123 | with no port or a closed port, both public operations fail with SessionNotOpen and leave the port untouched |
| `SessionProperties.GuardFailsAfterOpenSession` | lib/hacklet/dongle.rb:28-30 | after open_session returns, the guard fails and both public operations fail without I/O |
| `SessionProperties.SelectNetworkExchange` | lib/hacklet/dongle.rb:44-45 | within a session select_network writes one HandshakeRequest for the given network and reads 6 bytes, nothing else; the reply is those 6 bytes |
| `SessionProperties.FrameReadsDeclaredRemainder` | lib/hacklet/dongle.rb:59-62 | for any header: with no token 3 the step fails before reading; otherwise it reads exactly k bytes, and the buffer is the header followed by them, of length header + k |
| `SessionProperties.RequestSamplesEvents` | lib/hacklet/dongle.rb:57-60 | within a session request_samples writes SamplesRequest, reads 6, reads 4, then fails (on the port or on the missing token 3), with no further read |
| `SessionProperties.RequestSamplesNeverSucceeds` | lib/hacklet/dongle.rb:54-63 | as written, request_samples never returns a reply |
| `SessionProperties.BootWithoutPort` | lib/hacklet/dongle.rb:101-115 | with no port, transmit writes nothing and succeeds for every command, receive returns four zero bytes for every count, and boot and boot_confirm fail to decode them; no public call reaches this path |
| `SessionProperties.SamplesScenario` | lib/hacklet/dongle.rb:17-63 | with a cooperative device the port sees the boot exchange, SamplesRequest{1, 2}, reads of 6 and 4, and Close; the call fails on the missing token 3 |
| `SessionProperties.LockWriteFailureScenario` | lib/hacklet/dongle.rb:96-99 | when the LockRequest write fails, open_session fails with TransportFailure, the block does not run, and the port is still closed, once |

## Left out

- Opening the port (`open_serial_port`, lib/hacklet/dongle.rb:69-71) is a call into the serialport library. `OpenSession` takes the already-opened port as a parameter. The arity slip in that method (it is called with `port` but takes no parameter) is not modelled.
- Baud rate, parity, blocking and timeouts are not modelled. A read either delivers exactly the requested bytes or fails without consuming any, so short reads are not modelled.
- The logger (lib/hacklet/dongle.rb:8-10, 20-26, 102, 112) has no effect on the protocol and is left out. Only `unpack`, the hex rendering it logs, is modelled.
- The byte layouts of the request and response records are defined in files that are not part of this model. Commands are tagged values. A response keeps the bytes it was read from, and its length is the `receive` argument before it.
- The caller's block is modelled as a sequence of steps. It cannot rescue an exception and continue, and it cannot open a nested session.
- Network and channel identifiers are unbounded integers. The source does not check that they fit in 2 bytes, and their encoding is not modelled.
- Framing.HexToInt: Ruby's `to_i(16)` also accepts a leading sign, a `0x` prefix and underscores between digits. The model reads only leading hex digits, so a token such as `-1` or `0x1A` gives a different count here. In Ruby a token `-1` reads 0 more bytes and `-2` calls `read(-1)`, which raises; the model always reads at least one.
