/** The driver itself: class Dongle, whose `serial` field is the `@serial` it
    assigns, tests and closes, proved operation by operation against the
    specification functions of module Protocol. */
module Hacklet {
  import opened Framing
  import opened Protocol

  /** Stand-in for the serial port: it delivers the bytes queued in
      `incoming`, accepts `writesLeft` more writes, and records each call. */
  class Transport {
    var incoming: seq<byte>
    var writesLeft: nat
    var closed: bool
    ghost var trace: seq<Event>

    ghost function State(): Link
      reads this
    {
      Link(incoming, writesLeft, closed, trace)
    }

    constructor (incoming: seq<byte>, writesLeft: nat)
      ensures State() == Link(incoming, writesLeft, false, [])
    {
      this.incoming := incoming;
      this.writesLeft := writesLeft;
      closed := false;
      trace := [];
    }

    method Write(c: Command) returns (ok: bool)
      modifies this
      ensures (State(), ok) == LinkWrite(old(State()), c)
    {
      ok := !closed && writesLeft > 0;
      if ok {
        writesLeft := writesLeft - 1;
      }
      trace := trace + [Event.Write(c)];
    }

    method Read(n: nat) returns (bytes: Option<seq<byte>>)
      modifies this
      ensures (State(), bytes) == LinkRead(old(State()), n)
    {
      if !closed && n <= |incoming| {
        bytes := Some(incoming[..n]);
        incoming := incoming[n..];
      } else {
        bytes := None;
      }
      trace := trace + [Event.Read(n)];
    }

    method Close()
      modifies this
      ensures State() == LinkClose(old(State()))
    {
      closed := true;
      trace := trace + [Event.Close];
    }
  }

  class Dongle {
    var serial: Transport?

    /** The driver's `@serial`, as a value. */
    ghost function Snapshot(): Serial
      reads this, serial
    {
      if serial == null then Unset else Attached(serial.State())
    }

    constructor ()
      ensures serial == null
    {
      serial := null;
    }

    /** open_session: assign the port, boot, run the caller's block, and close
        the port on every exit. */
    method OpenSession(port: Transport, block: seq<Step>) returns (r: Result<seq<Response>>)
      modifies this, port
      ensures serial == port
      ensures (port.State(), r) == OpenSessionSpec(old(port.State()), block)
    {
      serial := port;
      var booted := Boot();
      if booted.Ok? {
        booted := BootConfirm();
        if booted.Ok? {
          booted := LockNetwork();
        }
      }
      if booted.Ok? {
        r := RunBlock(block);
      } else {
        r := Err(booted.error);
      }
      port.Close();
    }

    /** The caller's block, run step by step with the session. */
    method RunBlock(block: seq<Step>) returns (r: Result<seq<Response>>)
      modifies serial
      ensures (Snapshot(), r) == RunBlockSpec(old(Snapshot()), block)
    {
      var done: seq<Response> := [];
      var i := 0;
      assert block[0..] == block;
      ghost var whole := RunBlockSpec(Snapshot(), block);
      assert whole.1.Ok? ==> [] + whole.1.value == whole.1.value;
      assert Continue([], whole) == whole;
      while i < |block|
        invariant 0 <= i <= |block|
        invariant RunBlockSpec(old(Snapshot()), block) == Continue(done, RunBlockSpec(Snapshot(), block[i..]))
      {
        ghost var before := Snapshot();
        assert block[i..][0] == block[i] && block[i..][1..] == block[i + 1..];
        var out := PerformStep(block[i]);
        ghost var after := Snapshot();
        assert (after, out) == StepSpec(before, block[i]);
        if out.Err? {
          assert RunBlockSpec(before, block[i..]) == (after, Err(out.error));
          return Err(out.error);
        }
        assert RunBlockSpec(before, block[i..]) == Continue([out.value], RunBlockSpec(after, block[i + 1..]));
        ContinueAppend(done, out.value, RunBlockSpec(after, block[i + 1..]));
        done := done + [out.value];
        i := i + 1;
      }
      assert block[i..] == [];
      assert done + [] == done;
      r := Ok(done);
    }

    /** One step of the caller's block. */
    method PerformStep(step: Step) returns (out: Result<Response>)
      modifies serial
      ensures (Snapshot(), out) == StepSpec(old(Snapshot()), step)
    {
      match step {
        case SelectNetwork(id) =>
          out := SelectNetwork(id);
        case RequestSamples(n, c) =>
          out := RequestSamples(n, c);
        case Raise =>
          out := Err(BlockRaised);
      }
    }

    method SelectNetwork(networkId: int) returns (r: Result<Response>)
      modifies serial
      ensures (Snapshot(), r) == SelectNetworkSpec(old(Snapshot()), networkId)
    {
      var guard := RequireSession();
      if guard.Err? {
        return Err(guard.error);
      }
      var sent := Transmit(HandshakeRequest(networkId));
      if sent.Err? {
        return Err(sent.error);
      }
      var bytes := Receive(6);
      if bytes.Err? {
        return Err(bytes.error);
      }
      r := Decode(HandshakeResponse, bytes.value);
    }

    method RequestSamples(networkId: int, channelId: int) returns (r: Result<Response>)
      modifies serial
      ensures (Snapshot(), r) == RequestSamplesSpec(old(Snapshot()), networkId, channelId)
    {
      var guard := RequireSession();
      if guard.Err? {
        return Err(guard.error);
      }
      var sent := Transmit(SamplesRequest(networkId, channelId));
      if sent.Err? {
        return Err(sent.error);
      }
      var ack := Receive(6);
      if ack.Err? {
        return Err(ack.error);
      }
      var acked := Decode(AckResponse, ack.value);
      if acked.Err? {
        return Err(acked.error);
      }
      var header := Receive(4);
      if header.Err? {
        return Err(header.error);
      }
      var buffer := header.value;
      var remaining := RemainingBytes(buffer);
      if remaining.None? {
        return Err(LengthTokenMissing);
      }
      var rest := Receive(remaining.value);
      if rest.Err? {
        return Err(rest.error);
      }
      buffer := buffer + rest.value;
      r := Decode(SamplesResponse, buffer);
    }

    method Boot() returns (r: Result<Response>)
      modifies serial
      ensures (Snapshot(), r) == BootSpec(old(Snapshot()))
    {
      var sent := Transmit(BootRequest);
      if sent.Err? {
        return Err(sent.error);
      }
      var bytes := Receive(27);
      if bytes.Err? {
        return Err(bytes.error);
      }
      r := Decode(BootResponse, bytes.value);
    }

    method BootConfirm() returns (r: Result<Response>)
      modifies serial
      ensures (Snapshot(), r) == BootConfirmSpec(old(Snapshot()))
    {
      var sent := Transmit(BootConfirmRequest);
      if sent.Err? {
        return Err(sent.error);
      }
      var bytes := Receive(6);
      if bytes.Err? {
        return Err(bytes.error);
      }
      r := Decode(BootConfirmResponse, bytes.value);
    }

    method LockNetwork() returns (r: Result<Response>)
      modifies serial
      ensures (Snapshot(), r) == LockNetworkSpec(old(Snapshot()))
    {
      var sent := Transmit(LockRequest);
      if sent.Err? {
        return Err(sent.error);
      }
      var bytes := Receive(6);
      if bytes.Err? {
        return Err(bytes.error);
      }
      r := Decode(LockResponse, bytes.value);
    }

    method Transmit(c: Command) returns (r: Result<()>)
      modifies serial
      ensures (Snapshot(), r) == TransmitSpec(old(Snapshot()), c)
    {
      r := Ok(());
      if serial != null {
        var ok := serial.Write(c);
        if !ok {
          r := Err(TransportFailure);
        }
      }
    }

    method Receive(n: nat) returns (r: Result<seq<byte>>)
      modifies serial
      ensures (Snapshot(), r) == ReceiveSpec(old(Snapshot()), n)
    {
      if serial != null {
        var bytes := serial.Read(n);
        r := if bytes.Some? then Ok(bytes.value) else Err(TransportFailure);
      } else {
        r := Ok(UnsetReply);
      }
    }

    /** require_session: passes only while a port is set and not closed. */
    method RequireSession() returns (r: Result<()>)
      ensures r.Ok? <==> serial != null && !serial.closed
      ensures r.Err? ==> r.error == SessionNotOpen
    {
      if serial != null && !serial.closed {
        r := Ok(());
      } else {
        r := Err(SessionNotOpen);
      }
    }
  }
}
