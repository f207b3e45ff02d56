/** Connection establishment: the client sends SYN, the server answers the
    first header it reads with SYN+ACK when the SYN bit is set, and the client
    answers a SYN+ACK with a single ACK. Each side gets one attempt. */
module Handshake {
  import opened Codec

  /** Whether the side declares the handshake successful, and the packets it
      sends during the handshake, in order. */
  datatype Outcome = Outcome(success: bool, sent: seq<Bytes>)

  function SynPacket(): Bytes { ControlPacket(0, 0, SynFlag) }

  function SynAckPacket(): Bytes { ControlPacket(0, 0, SynFlag + AckFlag) }

  /** `serverHandshake` applied to the first header the server reads (read
      with a 6-byte buffer). A header that does not unpack makes
      `parse_header` raise, which ends the server like a failed handshake. */
  function ServerHandshake(first: Bytes): (r: Outcome)
    ensures r.success <==> |first| == HeaderSize && SynSet(ParseHeader(first).value.flags)
    ensures r.success ==> r.sent == [SynAckPacket()]
    ensures !r.success ==> r.sent == []
  {
    match ParseHeader(first)
    case None => Outcome(false, [])
    case Some(h) =>
      FlagTests(h.flags);
      if And(h.flags, SynFlag) == SynFlag then Outcome(true, [SynAckPacket()])
      else Outcome(false, [])
  }

  /** `clientHandshake`: SYN is sent first; `reply` is what `recvfrom` then
      returned, `None` for the timeout (any exception is caught and ends the
      handshake). A reply that does not unpack fails the same way. A reply
      with both SYN and ACK set is answered by an ACK whose acknowledgement
      number echoes the reply's sequence number. */
  function ClientHandshake(reply: Option<Bytes>): (r: Outcome)
    ensures r.success <==>
      reply.Some? && |reply.value| == HeaderSize &&
      SynSet(ParseHeader(reply.value).value.flags) && AckSet(ParseHeader(reply.value).value.flags)
    ensures r.success ==> r.sent == [SynPacket(), ControlPacket(0, ParseHeader(reply.value).value.seqNum, AckFlag)]
    ensures !r.success ==> r.sent == [SynPacket()]
  {
    match reply
    case None => Outcome(false, [SynPacket()])
    case Some(header) =>
      match ParseHeader(header)
      case None => Outcome(false, [SynPacket()])
      case Some(h) =>
        FlagTests(h.flags);
        if And(h.flags, SynFlag + AckFlag) == SynFlag + AckFlag then
          Outcome(true, [SynPacket(), ControlPacket(0, h.seqNum, AckFlag)])
        else Outcome(false, [SynPacket()])
  }

  /** With no loss the two sides agree: the server accepts the client's SYN,
      the client accepts the server's SYN+ACK, and the client's final ACK is a
      header-only packet whose FIN bit is clear. */
  lemma HandshakeAgreement()
    ensures ServerHandshake(SynPacket()).success
    ensures ClientHandshake(Some(ServerHandshake(SynPacket()).sent[0])).success
    ensures var ack := ClientHandshake(Some(SynAckPacket())).sent[1];
      |ack| == HeaderSize && ack == ControlPacket(0, 0, AckFlag) && !FinSet(ParseHeader(ack).value.flags)
  {
    assert SynSet(8) && SynSet(12) && AckSet(12) && !FinSet(4);
    ControlHeader(0, 0, SynFlag);
    ControlHeader(0, 0, SynFlag + AckFlag);
    ControlHeader(0, 0, AckFlag);
  }

  /** A control packet is exactly its header. */
  lemma ControlHeader(seqNum: u16, ackNum: u16, flags: u16)
    ensures ParseHeader(ControlPacket(seqNum, ackNum, flags)) == Some(Header(seqNum, ackNum, flags))
  {
    var p := ControlPacket(seqNum, ackNum, flags);
    HeaderRoundTrip(seqNum, ackNum, flags, []);
    assert p[..HeaderSize] == p;
  }
}
