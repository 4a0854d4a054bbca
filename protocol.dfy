/** The dongle's commands and replies, the abstract serial transport, and one
    specification function per driver operation, each a function of the
    driver's `@serial` state. */
module Protocol {
  import opened Framing

  /** Outbound records; their byte layouts are opaque here. */
  datatype Command =
    | BootRequest
    | BootConfirmRequest
    | LockRequest
    | HandshakeRequest(networkId: int)
    | SamplesRequest(networkId: int, channelId: int)

  datatype ResponseKind =
    | BootResponse
    | BootConfirmResponse
    | LockResponse
    | HandshakeResponse
    | AckResponse
    | SamplesResponse

  /** An inbound record: its kind and the bytes it was read from. */
  datatype Response = Response(kind: ResponseKind, raw: seq<byte>)

  datatype Error =
    | SessionNotOpen     // the RuntimeError raised by require_session
    | TransportFailure   // the serial port failed to write or to deliver the bytes
    | DecodeFailure      // a reply too short for its record
    | LengthTokenMissing // `split(' ')[3]` is nil, so `to_i(16)` raises
    | BlockRaised        // the caller's block raised

  datatype Result<T> = Ok(value: T) | Err(error: Error)

  /** One call the driver makes on the serial port. */
  datatype Event = Write(command: Command) | Read(count: nat) | Close

  /** Bytes in each fixed-layout reply (the `receive` argument before it). */
  function RecordLength(kind: ResponseKind): nat
    requires !kind.SamplesResponse?
  {
    if kind.BootResponse? then 27 else 6
  }

  /** `XResponse.read(bytes)`: a fixed record takes its leading bytes and fails
      on a shorter input; the samples record is taken whole. */
  function Decode(kind: ResponseKind, raw: seq<byte>): (r: Result<Response>)
    ensures r.Ok? <==> kind.SamplesResponse? || RecordLength(kind) <= |raw|
    ensures r.Err? ==> r.error == DecodeFailure
    ensures r.Ok? ==> r.value.kind == kind && r.value.raw <= raw
    ensures r.Ok? && !kind.SamplesResponse? ==> |r.value.raw| == RecordLength(kind)
    ensures r.Ok? && kind.SamplesResponse? ==> r.value.raw == raw
  {
    if kind.SamplesResponse? then Ok(Response(kind, raw))
    else if |raw| < RecordLength(kind) then Err(DecodeFailure)
    else Ok(Response(kind, raw[..RecordLength(kind)]))
  }

  /** The events of a complete boot sequence. */
  const BootTrace: seq<Event> :=
    [Write(BootRequest), Read(27), Write(BootConfirmRequest), Read(6), Write(LockRequest), Read(6)]

  // ---------------------------------------------------------------------------
  // The serial port, as a value

  /** `incoming`: the bytes the device will still send; `writesLeft`: how many
      more writes the line accepts before failing; `trace`: every call made. */
  datatype Link = Link(incoming: seq<byte>, writesLeft: nat, closed: bool, trace: seq<Event>)

  function LinkWrite(l: Link, c: Command): (Link, bool)
  {
    var ok := !l.closed && l.writesLeft > 0;
    (l.(writesLeft := if ok then l.writesLeft - 1 else l.writesLeft, trace := l.trace + [Write(c)]), ok)
  }

  function LinkRead(l: Link, n: nat): (Link, Option<seq<byte>>)
  {
    if !l.closed && n <= |l.incoming| then
      (l.(incoming := l.incoming[n..], trace := l.trace + [Read(n)]), Some(l.incoming[..n]))
    else
      (l.(trace := l.trace + [Read(n)]), None)
  }

  function LinkClose(l: Link): Link
  {
    l.(closed := true, trace := l.trace + [Close])
  }

  // ---------------------------------------------------------------------------
  // The driver's `@serial` and its operations

  /** `@serial`: nil, or a port (open or closed). */
  datatype Serial = Unset | Attached(link: Link)

  /** The condition require_session checks. */
  predicate InSession(d: Serial) {
    d.Attached? && !d.link.closed
  }

  /** `transmit`: writes only when a port is set. */
  function TransmitSpec(d: Serial, c: Command): (Serial, Result<()>)
  {
    match d
    case Unset => (Unset, Ok(()))
    case Attached(l) =>
      var (l', ok) := LinkWrite(l, c);
      (Attached(l'), if ok then Ok(()) else Err(TransportFailure))
  }

  /** What `receive` returns when no port is set, whatever was asked for. */
  const UnsetReply: seq<byte> := [0, 0, 0, 0]

  /** `receive(n)`. */
  function ReceiveSpec(d: Serial, n: nat): (Serial, Result<seq<byte>>)
  {
    match d
    case Unset => (Unset, Ok(UnsetReply))
    case Attached(l) =>
      var (l', bytes) := LinkRead(l, n);
      (Attached(l'), if bytes.Some? then Ok(bytes.value) else Err(TransportFailure))
  }

  /** `transmit(c)` then `K.read(receive(n))`: the shape of boot, boot_confirm,
      lock_network and select_network. */
  function ExchangeSpec(d: Serial, c: Command, n: nat, kind: ResponseKind): (Serial, Result<Response>)
  {
    var (d1, sent) := TransmitSpec(d, c);
    if sent.Err? then (d1, Err(sent.error))
    else
      var (d2, bytes) := ReceiveSpec(d1, n);
      if bytes.Err? then (d2, Err(bytes.error))
      else (d2, Decode(kind, bytes.value))
  }

  function BootSpec(d: Serial): (Serial, Result<Response>)
  {
    ExchangeSpec(d, BootRequest, 27, BootResponse)
  }

  function BootConfirmSpec(d: Serial): (Serial, Result<Response>)
  {
    ExchangeSpec(d, BootConfirmRequest, 6, BootConfirmResponse)
  }

  function LockNetworkSpec(d: Serial): (Serial, Result<Response>)
  {
    ExchangeSpec(d, LockRequest, 6, LockResponse)
  }

  /** boot; boot_confirm; lock_network, stopping at the first that raises. */
  function BootSequenceSpec(d: Serial): (Serial, Result<Response>)
  {
    var (d1, r1) := BootSpec(d);
    if r1.Err? then (d1, r1)
    else
      var (d2, r2) := BootConfirmSpec(d1);
      if r2.Err? then (d2, r2)
      else LockNetworkSpec(d2)
  }

  function SelectNetworkSpec(d: Serial, networkId: int): (Serial, Result<Response>)
  {
    if !InSession(d) then (d, Err(SessionNotOpen))
    else ExchangeSpec(d, HandshakeRequest(networkId), 6, HandshakeResponse)
  }

  /** The framing step of request_samples, for any header read so far: read
      `RemainingBytes(header)` more bytes and decode header and rest together. */
  function FrameSpec(d: Serial, header: seq<byte>): (Serial, Result<Response>)
  {
    match RemainingBytes(header)
    case None => (d, Err(LengthTokenMissing))
    case Some(k) =>
      var (d1, rest) := ReceiveSpec(d, k);
      if rest.Err? then (d1, Err(rest.error))
      else (d1, Decode(SamplesResponse, header + rest.value))
  }

  function RequestSamplesSpec(d: Serial, networkId: int, channelId: int): (Serial, Result<Response>)
  {
    if !InSession(d) then (d, Err(SessionNotOpen))
    else
      var (d1, sent) := TransmitSpec(d, SamplesRequest(networkId, channelId));
      if sent.Err? then (d1, Err(sent.error))
      else
        var (d2, ack) := ReceiveSpec(d1, 6);
        if ack.Err? then (d2, Err(ack.error))
        else
          var acked := Decode(AckResponse, ack.value);
          if acked.Err? then (d2, Err(acked.error))
          else
            var (d3, header) := ReceiveSpec(d2, 4);
            if header.Err? then (d3, Err(header.error))
            else FrameSpec(d3, header.value)
  }

  // ---------------------------------------------------------------------------
  // The caller's block

  /** One thing the caller's block does with the session. */
  datatype Step =
    | SelectNetwork(networkId: int)
    | RequestSamples(networkId: int, channelId: int)
    | Raise

  function StepSpec(d: Serial, step: Step): (Serial, Result<Response>)
  {
    match step
    case SelectNetwork(id) => SelectNetworkSpec(d, id)
    case RequestSamples(n, c) => RequestSamplesSpec(d, n, c)
    case Raise => (d, Err(BlockRaised))
  }

  /** Puts the responses gathered so far in front of the outcome of the rest. */
  function Continue(done: seq<Response>, rest: (Serial, Result<seq<Response>>)): (Serial, Result<seq<Response>>)
  {
    (rest.0, if rest.1.Ok? then Ok(done + rest.1.value) else rest.1)
  }

  lemma ContinueAppend(done: seq<Response>, next: Response, rest: (Serial, Result<seq<Response>>))
    ensures Continue(done, Continue([next], rest)) == Continue(done + [next], rest)
  {
    if rest.1.Ok? {
      assert done + ([next] + rest.1.value) == done + [next] + rest.1.value;
    }
  }

  /** The block runs its steps in order; the first failure propagates out of it. */
  function RunBlockSpec(d: Serial, block: seq<Step>): (r: (Serial, Result<seq<Response>>))
    ensures r.0.Attached? == d.Attached?
    decreases |block|
  {
    if block == [] then (d, Ok([]))
    else
      var (d1, first) := StepSpec(d, block[0]);
      if first.Err? then (d1, Err(first.error))
      else Continue([first.value], RunBlockSpec(d1, block[1..]))
  }

  /** open_session on a freshly opened port: the boot sequence, then the block,
      then — on every path — the port is closed. */
  function OpenSessionSpec(port: Link, block: seq<Step>): (Link, Result<seq<Response>>)
  {
    var (d1, booted) := BootSequenceSpec(Attached(port));
    var (d2, r) := if booted.Err? then (d1, Err(booted.error)) else RunBlockSpec(d1, block);
    (LinkClose(d2.link), r)
  }
}
