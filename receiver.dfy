/** The receiving side: `gbnSwServer` and the body of the `server` receive
    loop that drives it. The module-level globals `expected_seq_num`,
    `skipped_ack` and `testCase` become fields of one object. The socket
    becomes `replies`, the log of datagrams sent back to the client, and the
    output file becomes `written`, the log of `file.write` calls. */
module ReceiverSequencer {
  import opened Codec
  import opened Config

  /** The acknowledgement for data packet `n`: sequence number 0,
      acknowledgement number `n`, flags ACK. */
  function AckPacket(n: u16): Bytes { ControlPacket(0, n, AckFlag) }

  /** What one pass of the receive loop does with a datagram. */
  datatype Step =
    | Processed    // handed to gbnSwServer (longer than the header)
    | Skipped      // header only, FIN bit clear: a handshake leftover
    | FinReceived  // header only, FIN bit set: the loop ends
    | Malformed    // shorter than the header: the unpack raises and the server stops

  /** How the `server` receive loop sorts a datagram before anything else
      happens to it: the header unpack, then the header-only branch. */
  function Classify(p: Bytes): (s: Step)
    ensures s == Malformed <==> |p| < HeaderSize
    ensures s == FinReceived <==> |p| == HeaderSize && FinSet(FlagsField(p))
    ensures s == Skipped <==> |p| == HeaderSize && !FinSet(FlagsField(p))
    ensures s == Processed <==> |p| > HeaderSize
  {
    match SplitPacket(p)
    case None => Malformed
    case Some(split) =>
      if |p| == HeaderSize then
        FlagTests(split.0.flags);
        if And(split.0.flags, FinFlag) == FinFlag then FinReceived else Skipped
      else Processed
  }

  /** What one pass of the receive loop does to the counter `c` and to
      whether the `skip_ack` hook is pending (`pend`), giving `c'` and
      `pend'`: a datagram that is not data changes neither; at counter 4 a
      pending hook drops the data packet and is used up; otherwise the
      counter advances exactly when the packet carries its value. */
  ghost predicate Moves(p: Bytes, c: nat, pend: bool, c': nat, pend': bool)
  {
    if Classify(p) != Processed then c' == c && pend' == pend
    else if c == FaultIndex && pend then c' == c && !pend'
    else c' == c + (if SeqField(p) == c then 1 else 0) && pend' == pend
  }

  /** `counters` and `pends` follow the first `n` datagrams pass by pass. */
  ghost predicate Traced(incoming: seq<Bytes>, n: nat, counters: seq<nat>, pends: seq<bool>)
  {
    && n <= |incoming| && |counters| == n + 1 && |pends| == n + 1
    && forall k :: 0 <= k < n ==> Moves(incoming[k], counters[k], pends[k], counters[k + 1], pends[k + 1])
  }

  /** Extending the traces by one `Moves` step. (A separate lemma keeps
      the loop that uses it small for the solver.) */
  lemma TracedStep(incoming: seq<Bytes>, n: nat, counters: seq<nat>, pends: seq<bool>, c: nat, pend: bool)
    requires Traced(incoming, n, counters, pends) && n < |incoming|
    requires Moves(incoming[n], counters[n], pends[n], c, pend)
    ensures Traced(incoming, n + 1, counters + [c], pends + [pend])
  {
  }

  /** The `j`-th chunk written since the counter was `e0` is credited to the
      datagram `from[j]`, and that datagram is the one on which the counter
      moved from `e0 + j` to `e0 + j + 1`. */
  ghost predicate Paired(from: seq<nat>, counters: seq<nat>, e0: nat)
  {
    forall j :: 0 <= j < |from| ==>
      from[j] + 1 < |counters| && counters[from[j]] == e0 + j && counters[from[j] + 1] == e0 + j + 1
  }

  /** How the server loop ends, if it does within the datagrams given. */
  datatype ServeEnd = Closed | Crashed | Waiting

  class Receiver {
    var expected: nat            // expected_seq_num
    var testCase: TestCase
    var skippedAck: bool
    var written: seq<Bytes>      // payloads written to the file, in order
    var replies: seq<Bytes>      // datagrams sent to the client, in order
    var receivedBytes: nat       // received_bytes

    /** One payload written and one ACK sent per accepted packet, the ACKs
        numbered 0, 1, 2, ... in order. */
    ghost predicate Valid()
      reads this
    {
      && expected <= 0x1_0000
      && |written| == expected
      && |replies| == expected
      && (forall i :: 0 <= i < expected ==> replies[i] == AckPacket(i))
      && (testCase == SkipAck ==> !skippedAck)
    }

    /** The state set up by `server` before its loop (the counter, the hook flag, the test case and the
        empty buffer). */
    constructor (testCase: TestCase)
      ensures Valid()
      ensures expected == 0 && this.testCase == testCase && !skippedAck
      ensures written == [] && replies == [] && receivedBytes == 0
    {
      expected := 0;
      this.testCase := testCase;
      skippedAck := false;
      written := [];
      replies := [];
      receivedBytes := 0;
    }

    /** The `skip_ack` hook has not fired yet. */
    predicate SkipAckPending()
      reads this
    {
      testCase == SkipAck && !skippedAck
    }

    /** The effect of `gbnSwServer` on the state. The hook is checked first:
        while `expected_seq_num` is 4 and the hook is pending, whatever data
        packet arrives is dropped (no write, no ACK, no advance) and the hook
        is switched off for good. Otherwise a packet carrying the expected
        sequence number is written and acknowledged and the counter advances
        by one; any other packet is discarded without a reply. */
    twostate predicate HandledData(recvSeq: u16, payload: Bytes)
      reads this
    {
      if old(expected) == FaultIndex && old(SkipAckPending()) then
        && expected == old(expected) && written == old(written) && replies == old(replies)
        && skippedAck && testCase == NoTest
      else if recvSeq == old(expected) then
        && expected == old(expected) + 1
        && written == old(written) + [payload]
        && replies == old(replies) + [AckPacket(recvSeq)]
        && !skippedAck && testCase == old(testCase)
      else
        && expected == old(expected) && written == old(written) && replies == old(replies)
        && skippedAck == old(skippedAck) && testCase == old(testCase)
    }

    /** `gbnSwServer`. */
    method HandleData(recvSeq: u16, payload: Bytes)
      requires Valid()
      modifies this`expected, this`testCase, this`skippedAck, this`written, this`replies
      ensures Valid()
      ensures HandledData(recvSeq, payload)
      ensures old(expected) <= expected
      ensures SkipAckPending() ==> old(SkipAckPending())
    {
      if expected == FaultIndex && testCase == SkipAck && !skippedAck {
        skippedAck := true;
        testCase := NoTest;
      } else if recvSeq == expected {
        written := written + [payload];
        replies := replies + [AckPacket(recvSeq)];
        expected := expected + 1;
        skippedAck := false;
      }
    }

    /** One pass of the `server` receive loop: classify the datagram, hand
        data to `gbnSwServer` and count its payload bytes. */
    method OnDatagram(p: Bytes) returns (step: Step)
      requires Valid()
      modifies this
      ensures Valid()
      ensures step == Classify(p)
      ensures step == Processed ==>
        HandledData(SeqField(p), p[HeaderSize..]) && receivedBytes == old(receivedBytes) + |p| - HeaderSize
      ensures step != Processed ==> unchanged(this)
      ensures Moves(p, old(expected), old(SkipAckPending()), expected, SkipAckPending())
      ensures old(expected) <= expected
      ensures SkipAckPending() ==> old(SkipAckPending())
    {
      step := Classify(p);
      if step == Processed {
        HandleData(SeqField(p), p[HeaderSize..]);
        receivedBytes := receivedBytes + |p[HeaderSize..]|;
      }
    }

    /** The chunks written since the counter was `e0` came, in order, from
        the data datagrams among the first `used` that `from` names, each
        carrying the counter's value when it arrived. */
    ghost predicate Sourced(incoming: seq<Bytes>, used: nat, e0: nat, from: seq<nat>)
      reads this
    {
      && e0 <= expected <= |written| && used <= |incoming|
      && |from| == expected - e0
      && (forall j :: 0 <= j < |from| ==>
        && from[j] < used && |incoming[from[j]]| > HeaderSize
        && SeqField(incoming[from[j]]) == e0 + j
        && written[e0 + j] == incoming[from[j]][HeaderSize..])
      && (forall j :: 0 <= j < |from| - 1 ==> from[j] < from[j + 1])
    }

    /** One pass of the receive loop on datagram `used`, extending `from`
        when it is written and the trace by the new counter and hook state. */
    method Receive(incoming: seq<Bytes>, used: nat, ghost e0: nat, ghost from: seq<nat>,
                   ghost counters: seq<nat>, ghost pends: seq<bool>)
        returns (step: Step, ghost from': seq<nat>, ghost counters': seq<nat>, ghost pends': seq<bool>)
      requires Valid() && used < |incoming| && Sourced(incoming, used, e0, from)
      requires Traced(incoming, used, counters, pends)
      requires counters[used] == expected && pends[used] == SkipAckPending()
      requires Paired(from, counters, e0)
      modifies this
      ensures Valid() && Sourced(incoming, used + 1, e0, from')
      ensures Traced(incoming, used + 1, counters', pends')
      ensures counters'[0] == counters[0] && pends'[0] == pends[0]
      ensures counters'[used + 1] == expected && pends'[used + 1] == SkipAckPending()
      ensures Paired(from', counters', e0)
      ensures step == Classify(incoming[used])
      ensures old(expected) <= expected && old(written) <= written
    {
      ghost var before := written;
      step := OnDatagram(incoming[used]);
      assert before <= written;
      from' := from;
      if |from| < expected - e0 {
        from' := from + [used];
      }
      TracedStep(incoming, used, counters, pends, expected, SkipAckPending());
      counters' := counters + [expected];
      pends' := pends + [SkipAckPending()];
    }

    /** The `server` receive loop over a run of incoming datagrams: it stops
        at the first FIN or malformed datagram, or when the datagrams run
        out. The output grows only at its end, and every chunk it gains was
        carried, in order, by a data datagram whose sequence number was the
        counter's value when it arrived; `from` names those datagrams. */
    method Serve(incoming: seq<Bytes>)
        returns (end: ServeEnd, used: nat, ghost from: seq<nat>, ghost counters: seq<nat>, ghost pends: seq<bool>)
      requires Valid()
      modifies this
      ensures Valid()
      ensures used <= |incoming|
      ensures end == Waiting ==> used == |incoming|
      ensures end == Closed ==> 0 < used && Classify(incoming[used - 1]) == FinReceived
      ensures end == Crashed ==> 0 < used && Classify(incoming[used - 1]) == Malformed
      ensures forall k :: 0 <= k < used && (end == Waiting || k < used - 1) ==>
        Classify(incoming[k]) == Processed || Classify(incoming[k]) == Skipped
      ensures old(expected) <= expected && old(written) <= written
      ensures Sourced(incoming, used, old(expected), from)
      ensures Traced(incoming, used, counters, pends)
      ensures counters[0] == old(expected) && pends[0] == old(SkipAckPending())
      ensures counters[used] == expected && pends[used] == SkipAckPending()
      ensures Paired(from, counters, old(expected))
    {
      used := 0;
      end := Waiting;
      from := [];
      counters := [expected];
      pends := [SkipAckPending()];
      while end == Waiting && used < |incoming|
        invariant Valid() && used <= |incoming|
        invariant end == Closed ==> 0 < used && Classify(incoming[used - 1]) == FinReceived
        invariant end == Crashed ==> 0 < used && Classify(incoming[used - 1]) == Malformed
        invariant forall k :: 0 <= k < used && (end == Waiting || k < used - 1) ==>
          Classify(incoming[k]) == Processed || Classify(incoming[k]) == Skipped
        invariant old(expected) <= expected && old(written) <= written
        invariant Sourced(incoming, used, old(expected), from)
        invariant Traced(incoming, used, counters, pends)
        invariant counters[0] == old(expected) && pends[0] == old(SkipAckPending())
        invariant counters[used] == expected && pends[used] == SkipAckPending()
        invariant Paired(from, counters, old(expected))
      {
        var step;
        step, from, counters, pends := Receive(incoming, used, old(expected), from, counters, pends);
        used := used + 1;
        if step == FinReceived {
          end := Closed;
        } else if step == Malformed {
          end := Crashed;
        }
      }
    }
  }
}
