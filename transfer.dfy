/** A whole session between `client` and `server` over a channel that loses,
    reorders and corrupts nothing. Each receive of the sender takes the
    oldest ACK not yet read, and it times out only when no such ACK exists;
    every datagram the sender puts on the wire reaches the receiver in order.
    Any pair of test cases may be active. */
module Transfer {
  import opened Codec
  import opened Config
  import opened Chunking
  import opened Handshake
  import opened SenderWindow
  import opened ReceiverSequencer

  /** A data packet reaches `gbnSwServer` with its chunk's sequence number
      and payload. */
  lemma DataPacketFields(data: seq<Bytes>, i: nat)
    requires i < |data| <= 0x1_0000 && |data[i]| > 0
    ensures Classify(DataPacket(data, i)) == Processed
    ensures SeqField(DataPacket(data, i)) == i
    ensures DataPacket(data, i)[HeaderSize..] == data[i]
  {
    HeaderRoundTrip(i, 0, 0, data[i]);
  }

  /** The receiver's ACK for `n` passes the sender's test for base `n`. */
  lemma AckFields(n: u16)
    ensures AcksBase(AckPacket(n), n)
  {
    HeaderRoundTrip(0, n, AckFlag, []);
  }

  /** The sender's FIN ends the receive loop, and the client's last
      handshake ACK is skipped by it. */
  lemma ControlClasses()
    ensures Classify(FinPacket()) == FinReceived
    ensures Classify(ControlPacket(0, 0, AckFlag)) == Skipped
  {
    HeaderRoundTrip(0, 0, FinFlag, []);
    HeaderRoundTrip(0, 0, AckFlag, []);
    assert FinSet(2) && !FinSet(4);
  }

  /** Extending a receiver trace over the datagrams `ds` by one more. (A
      separate lemma keeps the loop that uses it small for the solver.) */
  lemma TracedSnoc(ds: seq<Bytes>, p: Bytes, counters: seq<nat>, pends: seq<bool>, c: nat, pend: bool)
    requires Traced(ds, |ds|, counters, pends)
    requires Moves(p, counters[|ds|], pends[|ds|], c, pend)
    ensures Traced(ds + [p], |ds| + 1, counters + [c], pends + [pend])
  {
  }

  /** Hand the data packet of chunk `i` to the receive loop. The receiver
      either keeps its state or accepts chunk `i` as the next one, and if it
      expected chunk `i` it accepts it unless the `skip_ack` hook fires. */
  method DeliverOne(r: Receiver, data: seq<Bytes>, i: nat) returns (p: Bytes)
    requires i < |data| <= 0x1_0000 && |data[i]| > 0
    requires r.Valid() && r.expected <= |data| && r.written == data[..r.expected]
    modifies r
    ensures p == DataPacket(data, i)
    ensures r.expected == old(r.expected) || (old(r.expected) == i && r.expected == i + 1)
    ensures r.Valid() && r.written == data[..r.expected]
    ensures r.SkipAckPending() ==> old(r.SkipAckPending())
    ensures old(r.expected) == i ==> r.expected == i + 1 || (old(r.SkipAckPending()) && !r.SkipAckPending())
    ensures Moves(p, old(r.expected), old(r.SkipAckPending()), r.expected, r.SkipAckPending())
  {
    p := DataPacket(data, i);
    DataPacketFields(data, i);
    ghost var e := r.expected;
    var step := r.OnDatagram(p);
    if r.expected != e {
      assert data[..e] + [data[e]] == data[..e + 1];
    }
  }

  /** Hand the packets of `Transmission(data, lo, hi, skip)` to the receive
      loop, in order. The receiver's output stays the prefix of the chunks
      it has accepted. When the first packet is the one the receiver
      expects, either it is accepted or the `skip_ack` hook fires on it. */
  method DeliverRange(r: Receiver, data: seq<Bytes>, lo: nat, hi: nat, skip: int)
      returns (ghost delivered: seq<Bytes>, ghost cs: seq<nat>, ghost ps: seq<bool>)
    requires lo <= hi <= |data| <= 0x1_0000
    requires forall i :: 0 <= i < |data| ==> |data[i]| > 0
    requires r.Valid() && r.expected <= hi && r.written == data[..r.expected]
    modifies r
    ensures delivered == Transmission(data, lo, hi, skip)
    ensures r.Valid() && old(r.expected) <= r.expected <= hi
    ensures r.written == data[..r.expected]
    ensures r.SkipAckPending() ==> old(r.SkipAckPending())
    ensures lo < hi && lo == old(r.expected) && lo != skip ==>
      old(r.expected) < r.expected || (old(r.SkipAckPending()) && !r.SkipAckPending())
    ensures Traced(delivered, |delivered|, cs, ps)
    ensures cs[0] == old(r.expected) && ps[0] == old(r.SkipAckPending())
    ensures cs[|delivered|] == r.expected && ps[|delivered|] == r.SkipAckPending()
  {
    delivered := [];
    cs, ps := [r.expected], [r.SkipAckPending()];
    var i := lo;
    while i < hi
      invariant lo <= i <= hi
      invariant delivered == Transmission(data, lo, i, skip)
      invariant r.Valid() && old(r.expected) <= r.expected <= hi
      invariant r.written == data[..r.expected]
      invariant r.SkipAckPending() ==> old(r.SkipAckPending())
      invariant i == lo ==> r.expected == old(r.expected) && r.SkipAckPending() == old(r.SkipAckPending())
      invariant lo < i && lo == old(r.expected) && lo != skip ==>
        old(r.expected) < r.expected || (old(r.SkipAckPending()) && !r.SkipAckPending())
      invariant Traced(delivered, |delivered|, cs, ps)
      invariant cs[0] == old(r.expected) && ps[0] == old(r.SkipAckPending())
      invariant cs[|delivered|] == r.expected && ps[|delivered|] == r.SkipAckPending()
    {
      delivered, cs, ps := DeliverNext(r, data, lo, i, skip, delivered, cs, ps);
      i := i + 1;
    }
  }

  /** One pass of the loop of `DeliverRange`: hand over chunk `i` unless it
      is the withheld one, extending the receiver's trace by its move. */
  method DeliverNext(r: Receiver, data: seq<Bytes>, lo: nat, i: nat, skip: int,
                     ghost delivered: seq<Bytes>, ghost cs: seq<nat>, ghost ps: seq<bool>)
      returns (ghost delivered': seq<Bytes>, ghost cs': seq<nat>, ghost ps': seq<bool>)
    requires lo <= i < |data| <= 0x1_0000
    requires forall k :: 0 <= k < |data| ==> |data[k]| > 0
    requires r.Valid() && r.expected <= |data| && r.written == data[..r.expected]
    requires delivered == Transmission(data, lo, i, skip)
    requires Traced(delivered, |delivered|, cs, ps)
    requires cs[|delivered|] == r.expected && ps[|delivered|] == r.SkipAckPending()
    modifies r
    ensures delivered' == Transmission(data, lo, i + 1, skip)
    ensures Traced(delivered', |delivered'|, cs', ps')
    ensures cs'[0] == cs[0] && ps'[0] == ps[0]
    ensures cs'[|delivered'|] == r.expected && ps'[|delivered'|] == r.SkipAckPending()
    ensures r.expected == old(r.expected) || (old(r.expected) == i && r.expected == i + 1)
    ensures r.Valid() && r.written == data[..r.expected]
    ensures r.SkipAckPending() ==> old(r.SkipAckPending())
    ensures i == skip ==> r.expected == old(r.expected) && r.SkipAckPending() == old(r.SkipAckPending())
    ensures i != skip && old(r.expected) == i ==>
      r.expected == i + 1 || (old(r.SkipAckPending()) && !r.SkipAckPending())
  {
    delivered', cs', ps' := delivered, cs, ps;
    if i != skip {
      var p := DeliverOne(r, data, i);
      TracedSnoc(delivered, p, cs, ps, r.expected, r.SkipAckPending());
      delivered' := delivered + [p];
      cs', ps' := cs + [r.expected], ps + [r.SkipAckPending()];
    }
  }

  /** The two endpoints in step: the sender's and the receiver's invariants,
      the receiver's counter between the sender's base and next sequence
      number, and the file written so far the accepted prefix of the chunks. */
  ghost predicate Coupled(s: Sender, r: Receiver, data: seq<Bytes>)
    reads s, r
  {
    && s.Valid() && !s.closed && s.data == data && r.Valid()
    && (forall i :: 0 <= i < |data| ==> |data[i]| > 0)
    && s.base <= r.expected <= s.nextSeqNum
    && r.written == data[..r.expected]
  }

  /** One pass of the sender's outer loop with the receiver
      handling everything it sends: fill the window, then read the ACK for
      `base` if the receiver has produced it, or else time out and resend the
      window. Everything sent is the new part of the window, followed by the
      whole window when the receive times out. Each pass advances `base`, or
      the receiver's counter, or uses up the `skip_ack` hook. */
  method Round(s: Sender, r: Receiver, data: seq<Bytes>) returns (ghost sent: seq<Bytes>)
    requires Coupled(s, r, data) && s.base < |data|
    modifies s, r
    ensures Coupled(s, r, data)
    ensures s.wire == old(s.wire) + sent
    ensures s.nextSeqNum == Min(old(s.base) + s.window, |data|)
    ensures s.base == old(s.base) + 1 ==> sent == Transmission(data, old(s.nextSeqNum), s.nextSeqNum, old(s.SkipAt()))
    ensures s.base == old(s.base) ==>
      sent == Transmission(data, old(s.nextSeqNum), s.nextSeqNum, old(s.SkipAt())) + Transmission(data, s.base, s.nextSeqNum, -1)
    ensures old(s.base) <= s.base <= old(s.base) + 1 && old(r.expected) <= r.expected
    ensures r.SkipAckPending() ==> old(r.SkipAckPending())
    ensures old(s.base) < s.base || old(r.expected) < r.expected || (old(r.SkipAckPending()) && !r.SkipAckPending())
  {
    ghost var cs, ps;
    sent, cs, ps := Send(s, r, data);
    ghost var fill := sent;
    ghost var resent := Answer(s, r, data);
    sent := fill + resent;
  }

  /** The receive after the window is filled: the ACK for `base` if the
      receiver has produced it, or else a timeout and a resend of the
      window. */
  method Answer(s: Sender, r: Receiver, data: seq<Bytes>) returns (ghost resent: seq<Bytes>)
    requires Coupled(s, r, data) && s.base < s.nextSeqNum
    modifies s, r
    ensures Coupled(s, r, data)
    ensures s.wire == old(s.wire) + resent && s.nextSeqNum == old(s.nextSeqNum)
    ensures old(s.base) <= s.base <= old(s.base) + 1 && old(r.expected) <= r.expected
    ensures s.base == old(s.base) + 1 ==> resent == []
    ensures s.base == old(s.base) ==> resent == Transmission(data, s.base, s.nextSeqNum, -1)
    ensures r.SkipAckPending() ==> old(r.SkipAckPending())
    ensures old(s.base) < s.base || old(r.expected) < r.expected || (old(r.SkipAckPending()) && !r.SkipAckPending())
  {
    if s.base < r.expected {
      ReadAck(s, r, data);
      resent := [];
    } else {
      ghost var cs, ps;
      resent, cs, ps := Retransmit(s, r, data);
    }
  }

  /** The inner loop of the sender, every packet it sends reaching the
      receiver. */
  method Send(s: Sender, r: Receiver, data: seq<Bytes>) returns (ghost sent: seq<Bytes>, ghost cs: seq<nat>, ghost ps: seq<bool>)
    requires Coupled(s, r, data) && s.base < |data|
    modifies s, r
    ensures Coupled(s, r, data)
    ensures s.wire == old(s.wire) + sent
    ensures s.nextSeqNum == Min(old(s.base) + s.window, |data|)
    ensures sent == Transmission(data, old(s.nextSeqNum), s.nextSeqNum, old(s.SkipAt()))
    ensures s.base == old(s.base) < s.nextSeqNum && old(r.expected) <= r.expected
    ensures r.SkipAckPending() ==> old(r.SkipAckPending())
    ensures Traced(sent, |sent|, cs, ps)
    ensures cs[0] == old(r.expected) && ps[0] == old(r.SkipAckPending())
    ensures cs[|sent|] == r.expected && ps[|sent|] == r.SkipAckPending()
  {
    var lo := s.nextSeqNum;
    var skip := s.SkipAt();
    s.FillWindow();
    sent, cs, ps := DeliverRange(r, data, lo, s.nextSeqNum, skip);
  }

  /** The receive returns the oldest unread ACK, the one for `base`. */
  method ReadAck(s: Sender, r: Receiver, data: seq<Bytes>)
    requires Coupled(s, r, data) && s.base < r.expected
    modifies s
    ensures Coupled(s, r, data)
    ensures s.wire == old(s.wire) && s.base == old(s.base) + 1 && s.nextSeqNum == old(s.nextSeqNum)
  {
    AckFields(s.base);
    s.OnPacket(r.replies[s.base]);
  }

  /** No ACK is pending, so the receive times out and the window is resent;
      the receiver then sees chunk `base`, the one it expects. */
  method Retransmit(s: Sender, r: Receiver, data: seq<Bytes>) returns (ghost sent: seq<Bytes>, ghost cs: seq<nat>, ghost ps: seq<bool>)
    requires Coupled(s, r, data) && s.base == r.expected < s.nextSeqNum
    modifies s, r
    ensures Coupled(s, r, data)
    ensures s.wire == old(s.wire) + sent && s.base == old(s.base) && s.nextSeqNum == old(s.nextSeqNum)
    ensures sent == Transmission(data, s.base, s.nextSeqNum, -1)
    ensures old(r.expected) < r.expected || (old(r.SkipAckPending()) && !r.SkipAckPending())
    ensures r.SkipAckPending() ==> old(r.SkipAckPending())
    ensures Traced(sent, |sent|, cs, ps)
    ensures cs[0] == old(r.expected) && ps[0] == old(r.SkipAckPending())
    ensures cs[|sent|] == r.expected && ps[|sent|] == r.SkipAckPending()
  {
    s.OnTimeout();
    sent, cs, ps := DeliverRange(r, data, s.base, s.nextSeqNum, -1);
  }

  /** The data phase: `goBackNClient` against the `server` receive loop,
      starting with the client's handshake ACK still queued for the server.
      The sender's loop ends, a single FIN closes the receive loop, and the
      file written is the chunk sequence, whatever the test cases. */
  method Transfer(data: seq<Bytes>, window: nat, clientTest: TestCase, serverTest: TestCase, handshakeAck: Bytes)
      returns (written: seq<Bytes>, last: Step)
    requires 1 <= window && |data| <= 0x1_0000
    requires forall i :: 0 <= i < |data| ==> |data[i]| > 0
    requires Classify(handshakeAck) == Skipped
    ensures written == data
    ensures last == FinReceived
  {
    var s := new Sender(data, window, clientTest);
    var r := new Receiver(serverTest);
    var first := r.OnDatagram(handshakeAck);
    while s.base < |data| || s.unacked != []
      invariant Coupled(s, r, data)
      decreases |data| - s.base, |data| - r.expected, if r.SkipAckPending() then 1 else 0
    {
      ghost var sent := Round(s, r, data);
    }
    s.Close();
    ControlClasses();
    last := r.OnDatagram(FinPacket());
    written := r.written;
  }

  /** `client` and `server` run against each other on a file's contents: an
      empty file ends the client before any packet is sent; otherwise the
      handshake succeeds and the server's output file holds exactly the
      client's file (`restructFile` writes nothing, its buffer being
      empty). Sequence numbers must fit 16 bits, which bounds the file. */
  method Session(file: Bytes, window: nat, clientTest: TestCase, serverTest: TestCase)
      returns (received: Option<Bytes>)
    requires 1 <= window && |file| <= DataSize * 0x1_0000
    ensures received.Some? <==> file != []
    ensures received.Some? ==> received.value == file
  {
    var dataArr := ReadChunks(file);
    ChunkCount(file);
    ChunkSizes(file);
    FlattenChunks(file);
    if |dataArr| == 0 {
      return None;
    }
    HandshakeAgreement();
    var server := ServerHandshake(SynPacket());
    if !server.success {
      return None;
    }
    var client := ClientHandshake(Some(server.sent[0]));
    if !client.success {
      return None;
    }
    ControlClasses();
    var written, last := Transfer(dataArr, window, clientTest, serverTest, client.sent[1]);
    received := Some(Flatten(written));
  }
}
