/** What the driver promises about its session: the order of the boot
    exchange, that the port is closed exactly once, that the guard stops every
    operation outside a session before any I/O, and how request_samples frames
    its reply. All are stated about the specification functions that the
    methods of class Dongle are proved to follow. */
module SessionProperties {
  import opened Framing
  import opened Protocol

  /** `l2` is `l` after calls that did not close it: the trace only grew, and
      by no Close. */
  predicate Extends(l: Link, l2: Link) {
    l2.closed == l.closed && l.trace <= l2.trace && Close !in l2.trace[|l.trace|..]
  }

  /** The boot sequence runs to the end: three writes and 27 + 6 + 6 bytes. */
  predicate BootCompletes(l: Link) {
    !l.closed && l.writesLeft >= 3 && |l.incoming| >= 39
  }

  /** A non-empty leading part of the boot sequence's events. */
  predicate IsBootPrefix(t: seq<Event>) {
    0 < |t| <= |BootTrace| && t == BootTrace[..|t|]
  }

  lemma ExtendsTransitive(l0: Link, l1: Link, l2: Link)
    requires Extends(l0, l1) && Extends(l1, l2)
    ensures Extends(l0, l2)
  {
    assert l2.trace[|l0.trace|..] == l1.trace[|l0.trace|..] + l2.trace[|l1.trace|..];
  }

  lemma ExchangeExtends(l: Link, c: Command, n: nat, kind: ResponseKind)
    ensures ExchangeSpec(Attached(l), c, n, kind).0.Attached?
    ensures Extends(l, ExchangeSpec(Attached(l), c, n, kind).0.link)
  {
    var l1 := LinkWrite(l, c).0;
    assert l1.trace[|l.trace|..] == [Write(c)];
    var l2 := LinkRead(l1, n).0;
    assert l2.trace[|l.trace|..] == [Write(c), Read(n)];
  }

  lemma ReceiveExtends(l: Link, n: nat)
    ensures ReceiveSpec(Attached(l), n).0.Attached?
    ensures Extends(l, ReceiveSpec(Attached(l), n).0.link)
  {
    assert LinkRead(l, n).0.trace[|l.trace|..] == [Read(n)];
  }

  /** request_samples neither closes the port nor detaches it. */
  lemma RequestSamplesExtends(l: Link, networkId: int, channelId: int)
    ensures RequestSamplesSpec(Attached(l), networkId, channelId).0.Attached?
    ensures Extends(l, RequestSamplesSpec(Attached(l), networkId, channelId).0.link)
  {
    if InSession(Attached(l)) {
      var l1 := LinkWrite(l, SamplesRequest(networkId, channelId)).0;
      assert l1.trace[|l.trace|..] == [Write(SamplesRequest(networkId, channelId))];
      ReceiveExtends(l1, 6);
      var l2 := ReceiveSpec(Attached(l1), 6).0.link;
      ExtendsTransitive(l, l1, l2);
      ReceiveExtends(l2, 4);
      var l3 := ReceiveSpec(Attached(l2), 4).0.link;
      ExtendsTransitive(l, l2, l3);
      var header := ReceiveSpec(Attached(l2), 4).1;
      if header.Ok? && RemainingBytes(header.value).Some? {
        var k := RemainingBytes(header.value).value;
        ReceiveExtends(l3, k);
        ExtendsTransitive(l, l3, ReceiveSpec(Attached(l3), k).0.link);
      }
    }
  }

  lemma StepExtends(l: Link, step: Step)
    ensures StepSpec(Attached(l), step).0.Attached?
    ensures Extends(l, StepSpec(Attached(l), step).0.link)
  {
    match step
    case SelectNetwork(id) =>
      ExchangeExtends(l, HandshakeRequest(id), 6, HandshakeResponse);
    case RequestSamples(n, c) =>
      RequestSamplesExtends(l, n, c);
    case Raise =>
      assert l.trace[|l.trace|..] == [];
  }

  /** Whatever the caller's block does, it leaves the port open and adds no Close. */
  lemma {:induction false} BlockExtends(l: Link, block: seq<Step>)
    ensures RunBlockSpec(Attached(l), block).0.Attached?
    ensures Extends(l, RunBlockSpec(Attached(l), block).0.link)
    decreases |block|
  {
    if block == [] {
      assert l.trace[|l.trace|..] == [];
    } else {
      StepExtends(l, block[0]);
      var (d1, first) := StepSpec(Attached(l), block[0]);
      if first.Ok? {
        BlockExtends(d1.link, block[1..]);
        ExtendsTransitive(l, d1.link, RunBlockSpec(d1, block[1..]).0.link);
      }
    }
  }

  /** One fixed-length exchange within a session: a write, then a read of the
      record's length; it fails only when the port does. */
  lemma ExchangeOutcome(l: Link, c: Command, kind: ResponseKind)
    requires !kind.SamplesResponse?
    ensures var (d, r) := ExchangeSpec(Attached(l), c, RecordLength(kind), kind);
      var n := RecordLength(kind);
      d.Attached? && d.link.closed == l.closed &&
      (r.Ok? <==> !l.closed && l.writesLeft > 0 && n <= |l.incoming|) &&
      (r.Ok? ==> d.link.trace == l.trace + [Write(c), Read(n)] &&
                 d.link.incoming == l.incoming[n..] && d.link.writesLeft == l.writesLeft - 1) &&
      (r.Err? ==> r.error == TransportFailure &&
                  (d.link.trace == l.trace + [Write(c)] || d.link.trace == l.trace + [Write(c), Read(n)]))
  {
  }

  /** The boot sequence writes BootRequest, reads 27 bytes, writes
      BootConfirmRequest, reads 6, writes LockRequest, reads 6, in that order;
      it succeeds exactly when the port takes all three writes and delivers all
      39 bytes, and otherwise stops after a leading part of that sequence. */
  lemma BootSequenceOutcome(l: Link)
    ensures BootSequenceSpec(Attached(l)).0.Attached?
    ensures Extends(l, BootSequenceSpec(Attached(l)).0.link)
    ensures var (d, r) := BootSequenceSpec(Attached(l));
      (r.Ok? <==> BootCompletes(l)) &&
      (r.Ok? ==> d.link.trace == l.trace + BootTrace && d.link.incoming == l.incoming[39..]) &&
      (r.Err? ==> r.error == TransportFailure && IsBootPrefix(d.link.trace[|l.trace|..]))
  {
    var t0 := l.trace;
    ExchangeOutcome(l, BootRequest, BootResponse);
    var (d1, r1) := BootSpec(Attached(l));
    var (d, r) := BootSequenceSpec(Attached(l));
    if r1.Err? {
      assert d == d1;
    } else {
      ExchangeOutcome(d1.link, BootConfirmRequest, BootConfirmResponse);
      var (d2, r2) := BootConfirmSpec(d1);
      if r2.Err? {
        assert d == d2;
      } else {
        ExchangeOutcome(d2.link, LockRequest, LockResponse);
        assert (d, r) == LockNetworkSpec(d2);
        assert d2.link.trace == t0 + BootTrace[..4];
        if r.Ok? {
          assert l.incoming[27..][6..][6..] == l.incoming[39..];
        }
      }
    }
    var added := d.link.trace[|t0|..];
    assert d.link.trace == t0 + added;
    assert Close !in BootTrace;
  }

  /** The events open_session adds: those of the boot and the block, with no
      Close among them, then one Close. */
  lemma OpenSessionAdds(l: Link, block: seq<Step>)
    ensures var l2 := OpenSessionSpec(l, block).0;
      l2.closed && |l.trace| < |l2.trace| &&
      l2.trace == l.trace + l2.trace[|l.trace|..|l2.trace| - 1] + [Close] &&
      Close !in l2.trace[|l.trace|..|l2.trace| - 1]
  {
    BootSequenceOutcome(l);
    var (d1, booted) := BootSequenceSpec(Attached(l));
    var d2 := if booted.Err? then d1 else RunBlockSpec(d1, block).0;
    if booted.Ok? {
      BlockExtends(d1.link, block);
      ExtendsTransitive(l, d1.link, d2.link);
    }
    assert OpenSessionSpec(l, block).0 == LinkClose(d2.link);
    var added := d2.link.trace[|l.trace|..];
    assert d2.link.trace == l.trace + added;
  }

  /** open_session closes the port on every exit — a failing boot step, a
      block that raises, or a normal return — and exactly once: its last event
      is the only Close it adds. */
  lemma OpenSessionClosesOnce(l: Link, block: seq<Step>)
    ensures var l2 := OpenSessionSpec(l, block).0;
      l2.closed && l.trace < l2.trace && l2.trace[|l2.trace| - 1] == Close &&
      multiset(l2.trace)[Close] == multiset(l.trace)[Close] + 1
  {
    OpenSessionAdds(l, block);
    var l2 := OpenSessionSpec(l, block).0;
    var added := l2.trace[|l.trace|..|l2.trace| - 1];
    assert multiset(added)[Close] == 0;
    assert multiset(l2.trace) == multiset(l.trace) + multiset(added) + multiset([Close]);
  }

  /** open_session runs the whole boot exchange before the block: when the boot
      completes, its six events come first; when it does not, only a leading
      part of them happens, the block never runs, and open_session fails. */
  lemma OpenSessionOrder(l: Link, block: seq<Step>)
    ensures var (l2, r) := OpenSessionSpec(l, block);
      |l.trace| < |l2.trace| &&
      var during := l2.trace[|l.trace|..|l2.trace| - 1];
      (BootCompletes(l) ==> BootTrace <= during) &&
      (!BootCompletes(l) ==> IsBootPrefix(during) && r == Err(TransportFailure))
  {
    OpenSessionAdds(l, block);
    BootSequenceOutcome(l);
    var (d1, booted) := BootSequenceSpec(Attached(l));
    var d2 := if booted.Err? then d1 else RunBlockSpec(d1, block).0;
    var l2 := OpenSessionSpec(l, block).0;
    assert l2 == LinkClose(d2.link);
    var during := l2.trace[|l.trace|..|l2.trace| - 1];
    assert during == d2.link.trace[|l.trace|..];
    if booted.Ok? {
      BlockExtends(d1.link, block);
      assert d1.link.trace == l.trace + BootTrace;
      assert d1.link.trace <= d2.link.trace;
      assert during[..|BootTrace|] == BootTrace;
    }
  }

  /** Outside a session (no port, or a closed one) both public operations fail
      with SessionNotOpen and leave the port exactly as it was: no I/O. */
  lemma GuardStopsBeforeIo(d: Serial, networkId: int, channelId: int)
    requires !InSession(d)
    ensures SelectNetworkSpec(d, networkId) == (d, Err(SessionNotOpen))
    ensures RequestSamplesSpec(d, networkId, channelId) == (d, Err(SessionNotOpen))
  {
  }

  /** Once open_session has returned, the guard fails: every later call of
      either public operation fails and performs no I/O. */
  lemma GuardFailsAfterOpenSession(l: Link, block: seq<Step>, networkId: int, channelId: int)
    ensures var d := Attached(OpenSessionSpec(l, block).0);
      !InSession(d) &&
      SelectNetworkSpec(d, networkId) == (d, Err(SessionNotOpen)) &&
      RequestSamplesSpec(d, networkId, channelId) == (d, Err(SessionNotOpen))
  {
    OpenSessionClosesOnce(l, block);
  }

  /** Within a session, select_network writes one HandshakeRequest for the
      given network and reads 6 bytes, and nothing else. */
  lemma SelectNetworkExchange(l: Link, networkId: int)
    requires !l.closed
    ensures var (d, r) := SelectNetworkSpec(Attached(l), networkId);
      d.Attached? && !d.link.closed &&
      d.link.trace == l.trace + (if l.writesLeft > 0 then [Write(HandshakeRequest(networkId)), Read(6)]
                                 else [Write(HandshakeRequest(networkId))]) &&
      (r.Ok? <==> l.writesLeft > 0 && |l.incoming| >= 6) &&
      (r.Ok? ==> r.value == Response(HandshakeResponse, l.incoming[..6]) && d.link.incoming == l.incoming[6..]) &&
      (r.Err? ==> r.error == TransportFailure)
  {
  }

  /** The framing step, for any header: with no token 3 it fails before any
      read; otherwise it reads exactly k = to_i(16) of token 3 plus one more
      bytes, and the decoded buffer is the header followed by those k bytes. */
  lemma FrameReadsDeclaredRemainder(l: Link, header: seq<byte>)
    requires !l.closed
    ensures var (d, r) := FrameSpec(Attached(l), header);
      (RemainingBytes(header).None? ==> d == Attached(l) && r == Err(LengthTokenMissing)) &&
      (RemainingBytes(header).Some? ==>
        var k := RemainingBytes(header).value;
        d.Attached? && d.link.trace == l.trace + [Read(k)] &&
        (r.Ok? <==> k <= |l.incoming|) &&
        (r.Ok? ==> r.value == Response(SamplesResponse, header + l.incoming[..k]) && |r.value.raw| == |header| + k))
  {
  }

  /** request_samples as written: within a session it writes the
      SamplesRequest, reads the 6-byte acknowledgement and the 4-byte header,
      and then stops, because a 4-byte header never holds a token 3. */
  lemma RequestSamplesEvents(l: Link, networkId: int, channelId: int)
    requires !l.closed
    ensures var (d, r) := RequestSamplesSpec(Attached(l), networkId, channelId);
      var w := Write(SamplesRequest(networkId, channelId));
      d.Attached? && r.Err? &&
      (l.writesLeft == 0 ==> d.link.trace == l.trace + [w] && r.error == TransportFailure) &&
      (l.writesLeft > 0 && |l.incoming| < 6 ==>
        d.link.trace == l.trace + [w, Read(6)] && r.error == TransportFailure) &&
      (l.writesLeft > 0 && 6 <= |l.incoming| < 10 ==>
        d.link.trace == l.trace + [w, Read(6), Read(4)] && r.error == TransportFailure) &&
      (l.writesLeft > 0 && 10 <= |l.incoming| ==>
        d.link.trace == l.trace + [w, Read(6), Read(4)] && r.error == LengthTokenMissing &&
        d.link.incoming == l.incoming[10..])
  {
    if l.writesLeft > 0 && 10 <= |l.incoming| {
      var l1 := LinkRead(LinkWrite(l, SamplesRequest(networkId, channelId)).0, 6).0;
      assert l1.incoming == l.incoming[6..];
      FourByteHeaderHasNoLengthToken(l1.incoming[..4]);
      assert l1.incoming[4..] == l.incoming[10..];
    }
  }

  /** As written, request_samples never returns a SamplesResponse. */
  lemma RequestSamplesNeverSucceeds(d: Serial, networkId: int, channelId: int)
    ensures RequestSamplesSpec(d, networkId, channelId).1.Err?
  {
    if InSession(d) {
      RequestSamplesEvents(d.link, networkId, channelId);
    }
  }

  /** Without a port, transmit writes nothing and succeeds for every command,
      and receive answers four zero bytes whatever was asked for; those are too
      short for the boot reply, so boot fails to decode. No public call reaches
      this path: the private operations run only after `@serial` is set, and the
      public ones stop at the session guard first. */
  lemma BootWithoutPort()
    ensures forall c :: TransmitSpec(Unset, c) == (Unset, Ok(()))
    ensures forall n :: ReceiveSpec(Unset, n) == (Unset, Ok([0, 0, 0, 0]))
    ensures BootSpec(Unset) == (Unset, Err(DecodeFailure))
    ensures BootConfirmSpec(Unset) == (Unset, Err(DecodeFailure))
  {
  }

  /** A device that answers the boot exchange and the acknowledgement: the port
      sees the three boot commands, then SamplesRequest{1, 2}, the two reads of
      request_samples, and the Close; the call fails on the missing token 3. */
  lemma SamplesScenario(l: Link)
    requires l.trace == [] && !l.closed && l.writesLeft >= 4 && |l.incoming| >= 49
    ensures var (l2, r) := OpenSessionSpec(l, [RequestSamples(1, 2)]);
      r == Err(LengthTokenMissing) &&
      l2.trace == BootTrace + [Write(SamplesRequest(1, 2)), Read(6), Read(4), Close]
  {
    BootSequenceOutcome(l);
    var d1 := BootSequenceSpec(Attached(l)).0;
    RequestSamplesEvents(d1.link, 1, 2);
  }

  /** A port that fails the third write (LockRequest): open_session fails with
      TransportFailure, the block never runs, and the port is still closed. */
  lemma LockWriteFailureScenario(l: Link, block: seq<Step>)
    requires l.trace == [] && !l.closed && l.writesLeft == 2 && |l.incoming| >= 33
    ensures var (l2, r) := OpenSessionSpec(l, block);
      r == Err(TransportFailure) && l2.closed &&
      l2.trace == [Write(BootRequest), Read(27), Write(BootConfirmRequest), Read(6), Write(LockRequest), Close]
  {
  }
}
