/** The Go-Back-N sender of `goBackNClient`. The socket is replaced by an
    event input (a datagram that arrived, or a receive that timed out or
    failed) and by `wire`, the log of every datagram handed to `sendto`. */
module SenderWindow {
  import opened Codec
  import opened Config

  datatype Event = Arrived(packet: Bytes) | TimedOut

  /** A received datagram whose flags field is exactly ACK. */
  predicate IsPureAck(e: Event)
  {
    e.Arrived? && |e.packet| >= HeaderSize && FlagsField(e.packet) == AckFlag
  }

  /** The number of pure ACKs among the events. */
  function AckCount(events: seq<Event>): nat
  {
    if events == [] then 0
    else AckCount(events[..|events| - 1]) + (if IsPureAck(events[|events| - 1]) then 1 else 0)
  }

  lemma AckCountStep(events: seq<Event>, n: nat)
    requires n < |events|
    ensures AckCount(events[..n + 1]) == AckCount(events[..n]) + (if IsPureAck(events[n]) then 1 else 0)
  {
    assert events[..n + 1][..n] == events[..n];
  }

  /** The data packet for chunk `i`: sequence number `i`, acknowledgement
      number 0, flags 0. */
  function DataPacket(data: seq<Bytes>, i: nat): Bytes
    requires i < |data| && i < 0x1_0000
  {
    CreatePacket(i, 0, 0, data[i])
  }

  function FinPacket(): Bytes { ControlPacket(0, 0, FinFlag) }

  /** The data packets for chunks `lo .. hi-1`, in order, leaving out chunk
      `skip` (a `skip` outside the range leaves out nothing). */
  function Transmission(data: seq<Bytes>, lo: nat, hi: nat, skip: int): seq<Bytes>
    requires lo <= hi <= |data| <= 0x1_0000
    decreases hi - lo
  {
    if lo == hi then []
    else Transmission(data, lo, hi - 1, skip) + (if hi - 1 == skip then [] else [DataPacket(data, hi - 1)])
  }

  /** A datagram whose flags field (bytes 4 and 5) is 0. */
  predicate IsDataFrame(p: Bytes)
  {
    |p| >= HeaderSize && p[4] == 0 && p[5] == 0
  }

  /** The receive test of `goBackNClient`'s `try` branch: a pure ACK for
      exactly `base`. */
  predicate AcksBase(p: Bytes, base: int)
  {
    |p| >= HeaderSize && FlagsField(p) == AckFlag && AckField(p) == base
  }

  /** The chunk the `skip_seq_num` hook withholds from a pass starting at
      chunk `next`: chunk 4 under that test case while it is still ahead,
      -1 (none) otherwise. */
  function SkipFrom(testCase: TestCase, next: nat): int
  {
    if testCase == SkipSeqNum && next <= FaultIndex then FaultIndex else -1
  }

  /** One pass of the outer loop of `goBackNClient` for the event `e`, from
      base `b`, next sequence number `n` and wire `w` to `b'`, `n'`, `w'`:
      the window is filled up to `min(b + window, len(dataArr))`, sending
      the new chunks but the withheld one; then a pure ACK for `b` advances
      the base by one, a receive that times out or returns a datagram too
      short to unpack resends the whole window, and any other datagram
      changes nothing. */
  ghost predicate Pass(data: seq<Bytes>, window: nat, testCase: TestCase, e: Event,
                       b: nat, n: nat, w: seq<Bytes>, b': nat, n': nat, w': seq<Bytes>)
  {
    && b <= n <= |data| <= 0x1_0000 && n <= b + window
    && n' == Min(b + window, |data|)
    && b' == b + (if e.Arrived? && AcksBase(e.packet, b) && b < |data| then 1 else 0)
    && w' == w + Transmission(data, n, n', SkipFrom(testCase, n))
              + (if e.TimedOut? || |e.packet| < HeaderSize then Transmission(data, b, n', -1) else [])
  }

  /** Data packets of different chunks are different datagrams. */
  lemma DataPacketInjective(data: seq<Bytes>, i: nat, j: nat)
    requires i < |data| <= 0x1_0000 && j < |data|
    ensures DataPacket(data, i) == DataPacket(data, j) <==> i == j
  {
    CreatePacketInjective(i, 0, 0, data[i], j, 0, 0, data[j]);
  }

  /** A transmission holds the data packet of chunk `i` exactly when `i` is
      in range and is not the skipped chunk; so a skipped chunk is never
      sent by that pass. */
  lemma {:induction false} TransmissionContents(data: seq<Bytes>, lo: nat, hi: nat, skip: int, i: nat)
    requires lo <= hi <= |data| <= 0x1_0000 && i < |data|
    ensures DataPacket(data, i) in Transmission(data, lo, hi, skip) <==> lo <= i < hi && i != skip
    decreases hi - lo
  {
    if lo < hi {
      TransmissionContents(data, lo, hi - 1, skip, i);
      DataPacketInjective(data, i, hi - 1);
    }
  }

  /** Every packet of a transmission is a data frame. */
  lemma {:induction false} TransmissionFrames(data: seq<Bytes>, lo: nat, hi: nat, skip: int)
    requires lo <= hi <= |data| <= 0x1_0000
    ensures forall k :: 0 <= k < |Transmission(data, lo, hi, skip)| ==> IsDataFrame(Transmission(data, lo, hi, skip)[k])
    decreases hi - lo
  {
    if lo < hi {
      TransmissionFrames(data, lo, hi - 1, skip);
      var t := Transmission(data, lo, hi - 1, skip);
      if hi - 1 != skip {
        assert IsDataFrame(DataPacket(data, hi - 1));
      }
    }
  }

  lemma FinIsNotData()
    ensures !IsDataFrame(FinPacket())
  {
  }

  /** The total size of chunks `lo .. hi-1`, leaving out chunk `skip`. */
  function ChunkBytes(data: seq<Bytes>, lo: nat, hi: nat, skip: int): nat
    requires lo <= hi <= |data|
    decreases hi - lo
  {
    if lo == hi then 0
    else ChunkBytes(data, lo, hi - 1, skip) + (if hi - 1 == skip then 0 else |data[hi - 1]|)
  }

  /** The payload bytes that `sent_bytes` counts for a transmission are the
      sizes of the chunks it carries. */
  lemma {:induction false} TransmissionPayload(data: seq<Bytes>, lo: nat, hi: nat, skip: int)
    requires lo <= hi <= |data| <= 0x1_0000
    ensures PayloadTotal(Transmission(data, lo, hi, skip)) == ChunkBytes(data, lo, hi, skip)
    decreases hi - lo
  {
    if lo < hi {
      TransmissionPayload(data, lo, hi - 1, skip);
      var t := Transmission(data, lo, hi - 1, skip);
      var last := if hi - 1 == skip then [] else [DataPacket(data, hi - 1)];
      PayloadTotalAppend(t, last);
      if last != [] {
        assert last[..0] == [];
        assert PayloadTotal(last) == PayloadLen(DataPacket(data, hi - 1));
      }
    }
  }

  class Sender {
    const data: seq<Bytes>         // dataArr
    const window: nat              // args.windowSize
    const testCase: TestCase       // args.testCase
    var skippedSeqNum: bool
    var base: nat
    var nextSeqNum: nat
    var unacked: seq<(nat, Bytes)> // unackedPackets
    var sentBytes: nat
    var wire: seq<Bytes>           // every datagram sent, oldest first
    var closed: bool               // closeConnection has run

    /** The window invariant: `base <= nextSeqNum <= min(base + window,
        len(dataArr))`, the unacked list holds exactly the packets of chunks
        `base .. nextSeqNum-1` in order, the `skip_seq_num` hook has fired
        exactly when chunk 4 has been queued under that test case,
        `sentBytes` counts the payload bytes
        put on the wire, and every datagram sent is a data packet, except the
        FIN that closes the session. */
    ghost predicate Valid()
      reads this
    {
      && 1 <= window && |data| <= 0x1_0000
      && base <= nextSeqNum <= |data| && nextSeqNum <= base + window
      && |unacked| == nextSeqNum - base
      && (forall k :: 0 <= k < |unacked| ==> unacked[k] == (base + k, DataPacket(data, base + k)))
      && (skippedSeqNum <==> testCase == SkipSeqNum && FaultIndex < nextSeqNum)
      && (closed ==> base == |data| && unacked == [] && |wire| > 0 && wire[|wire| - 1] == FinPacket())
      && WireValid()
    }

    /** `sentBytes` counts the payload bytes put on the wire, and every
        datagram sent is a data packet, except the FIN that closes the
        session. */
    ghost predicate WireValid()
      reads this
    {
      && sentBytes == PayloadTotal(wire)
      && (forall k :: 0 <= k < |wire| ==> IsDataFrame(wire[k]) || (closed && k == |wire| - 1))
    }

    /** The initial state of `goBackNClient`. The sequence numbers of all
        chunks must fit the 16-bit field, or `struct.pack` raises. */
    constructor (data: seq<Bytes>, window: nat, testCase: TestCase)
      requires 1 <= window && |data| <= 0x1_0000
      ensures Valid()
      ensures this.data == data && this.window == window && this.testCase == testCase
      ensures base == 0 && nextSeqNum == 0 && unacked == [] && sentBytes == 0
      ensures wire == [] && !skippedSeqNum && !closed
    {
      this.data := data;
      this.window := window;
      this.testCase := testCase;
      skippedSeqNum := false;
      base := 0;
      nextSeqNum := 0;
      unacked := [];
      sentBytes := 0;
      wire := [];
      closed := false;
    }

    /** The chunk the `skip_seq_num` hook will withhold, or -1 if it will not
        fire again. */
    function SkipAt(): int
      reads this
    {
      if testCase == SkipSeqNum && !skippedSeqNum then FaultIndex else -1
    }

    /** The inner `while` loop of `goBackNClient`: queue and send chunks while the window
        has room and chunks remain. Under `skip_seq_num`, chunk 4 is queued
        but not sent (and not counted in `sentBytes`), once. */
    method FillWindow()
      requires Valid() && !closed
      modifies this
      ensures Valid() && !closed
      ensures base == old(base)
      ensures nextSeqNum == Min(base + window, |data|)
      ensures wire == old(wire) + Transmission(data, old(nextSeqNum), nextSeqNum, old(SkipAt()))
      ensures sentBytes == old(sentBytes) + ChunkBytes(data, old(nextSeqNum), nextSeqNum, old(SkipAt()))
      ensures skippedSeqNum == (old(skippedSeqNum) || (old(SkipAt()) == FaultIndex && old(nextSeqNum) <= FaultIndex < nextSeqNum))
    {
      ghost var skip := SkipAt();
      while nextSeqNum < base + window && nextSeqNum < |data|
        invariant Valid() && !closed
        invariant base == old(base)
        invariant Filled(old(nextSeqNum), old(wire), old(sentBytes), old(skippedSeqNum), skip)
        decreases |data| - nextSeqNum
      {
        FillStep(old(nextSeqNum), old(wire), old(sentBytes), old(skippedSeqNum), skip);
      }
    }

    /** What the inner loop has done since it started at chunk `lo`, with
        the wire `w0`, the count `b0`, the hook flag `s0`, and `skip` the
        chunk the hook would then withhold. */
    ghost predicate Filled(lo: nat, w0: seq<Bytes>, b0: nat, s0: bool, skip: int)
      reads this
    {
      && lo <= nextSeqNum <= |data| <= 0x1_0000
      && wire == w0 + Transmission(data, lo, nextSeqNum, skip)
      && sentBytes == b0 + ChunkBytes(data, lo, nextSeqNum, skip)
      && skippedSeqNum == (s0 || (skip == FaultIndex && lo <= FaultIndex < nextSeqNum))
      && (skip == FaultIndex || skip == -1)
      && (skip == FaultIndex <==> testCase == SkipSeqNum && !s0)
    }

    /** One pass of the inner loop extends what it has done by one chunk. */
    method FillStep(ghost lo: nat, ghost w0: seq<Bytes>, ghost b0: nat, ghost s0: bool, ghost skip: int)
      requires Valid() && !closed && nextSeqNum < base + window && nextSeqNum < |data|
      requires Filled(lo, w0, b0, s0, skip)
      modifies this`unacked, this`nextSeqNum, this`skippedSeqNum, this`wire, this`sentBytes
      ensures Valid() && !closed
      ensures Filled(lo, w0, b0, s0, skip)
      ensures nextSeqNum == old(nextSeqNum) + 1
    {
      ghost var n := nextSeqNum;
      ghost var t := Transmission(data, lo, n, skip);
      assert (n == SkipAt()) == (n == skip);
      QueueNext();
      ghost var x := if n == skip then [] else [DataPacket(data, n)];
      assert Transmission(data, lo, n + 1, skip) == t + x;
      assert (w0 + t) + x == w0 + (t + x);
    }

    /** One pass of the inner loop: queue chunk `nextSeqNum` and send it,
        unless the `skip_seq_num` hook withholds it. */
    method QueueNext()
      requires Valid() && !closed && nextSeqNum < base + window && nextSeqNum < |data|
      modifies this`unacked, this`nextSeqNum, this`skippedSeqNum, this`wire, this`sentBytes
      ensures Valid() && !closed
      ensures nextSeqNum == old(nextSeqNum) + 1
      ensures wire == old(wire) + (if old(nextSeqNum) == old(SkipAt()) then [] else [DataPacket(data, old(nextSeqNum))])
      ensures sentBytes == old(sentBytes) + (if old(nextSeqNum) == old(SkipAt()) then 0 else |data[old(nextSeqNum)]|)
      ensures skippedSeqNum == (old(skippedSeqNum) || old(nextSeqNum) == old(SkipAt()))
    {
      if nextSeqNum == FaultIndex && testCase == SkipSeqNum && !skippedSeqNum {
        Withhold();
      } else {
        Transmit();
      }
    }

    /** The `skip_seq_num` branch: chunk 4 joins the unacked list unsent. */
    method Withhold()
      requires Valid() && !closed && nextSeqNum < base + window && nextSeqNum < |data|
      requires nextSeqNum == FaultIndex && testCase == SkipSeqNum && !skippedSeqNum
      modifies this`unacked, this`nextSeqNum, this`skippedSeqNum
      ensures Valid() && !closed
      ensures nextSeqNum == old(nextSeqNum) + 1 && skippedSeqNum
    {
      var packet := CreatePacket(nextSeqNum, 0, 0, data[nextSeqNum]);
      unacked := unacked + [(nextSeqNum, packet)];
      nextSeqNum := nextSeqNum + 1;
      skippedSeqNum := true;
    }

    /** The ordinary branch: the chunk joins the unacked list and is sent. */
    method Transmit()
      requires Valid() && !closed && nextSeqNum < base + window && nextSeqNum < |data|
      requires !(nextSeqNum == FaultIndex && testCase == SkipSeqNum && !skippedSeqNum)
      modifies this`unacked, this`nextSeqNum, this`wire, this`sentBytes
      ensures Valid() && !closed
      ensures nextSeqNum == old(nextSeqNum) + 1
      ensures wire == old(wire) + [DataPacket(data, old(nextSeqNum))]
      ensures sentBytes == old(sentBytes) + |data[old(nextSeqNum)]|
    {
      var packet := CreatePacket(nextSeqNum, 0, 0, data[nextSeqNum]);
      unacked := unacked + [(nextSeqNum, packet)];
      SendPacket(packet);
      nextSeqNum := nextSeqNum + 1;
    }

    /** `sendto` of a data packet, counted in `sent_bytes`. */
    method SendPacket(packet: Bytes)
      requires WireValid() && !closed && IsDataFrame(packet)
      modifies this`wire, this`sentBytes
      ensures WireValid()
      ensures wire == old(wire) + [packet]
      ensures sentBytes == old(sentBytes) + PayloadLen(packet)
    {
      assert (wire + [packet])[..|wire|] == wire;
      wire := wire + [packet];
      sentBytes := sentBytes + PayloadLen(packet);
    }

    /** The `except` branch of `goBackNClient`: resend every unacked packet,
        oldest first, with the bytes it was first built with. */
    method OnTimeout()
      requires Valid() && !closed
      modifies this`wire, this`sentBytes
      ensures Valid() && !closed
      ensures wire == old(wire) + Transmission(data, base, nextSeqNum, -1)
      ensures sentBytes == old(sentBytes) + ChunkBytes(data, base, nextSeqNum, -1)
    {
      var k := 0;
      while k < |unacked|
        invariant 0 <= k <= |unacked|
        invariant Valid() && !closed
        invariant wire == old(wire) + Transmission(data, base, base + k, -1)
        invariant sentBytes == old(sentBytes) + ChunkBytes(data, base, base + k, -1)
      {
        Resend(k);
        k := k + 1;
      }
    }

    /** One pass of the resend loop: the `k`-th unacked packet again. */
    method Resend(k: nat)
      requires Valid() && !closed && k < |unacked|
      modifies this`wire, this`sentBytes
      ensures Valid() && !closed
      ensures wire == old(wire) + [DataPacket(data, base + k)]
      ensures sentBytes == old(sentBytes) + |data[base + k]|
    {
      var packet := unacked[k].1;
      assert IsDataFrame(packet);
      SendPacket(packet);
    }

    /** The `try` branch of `goBackNClient` for a datagram that arrived. Only a
        pure ACK (flags exactly 4) for exactly `base` changes the state: it
        drops the oldest unacked packet and advances `base` by one. A datagram
        shorter than the header makes the unpack raise, and the `except`
        clause resends the window. (An ACK for `base` with nothing unacked
        would make `pop(0)` raise; the resend is then empty. The loop never
        reaches that state.) */
    method OnPacket(packet: Bytes)
      requires Valid() && !closed
      modifies this`base, this`unacked, this`wire, this`sentBytes
      ensures Valid() && !closed
      ensures nextSeqNum == old(nextSeqNum)
      ensures |packet| < HeaderSize ==>
        base == old(base) && unacked == old(unacked) &&
        wire == old(wire) + Transmission(data, base, nextSeqNum, -1) &&
        sentBytes == old(sentBytes) + ChunkBytes(data, base, nextSeqNum, -1)
      ensures AcksBase(packet, old(base)) && old(base) < nextSeqNum ==>
        base == old(base) + 1 && unacked == old(unacked)[1..] &&
        wire == old(wire) && sentBytes == old(sentBytes)
      ensures |packet| >= HeaderSize && !(AcksBase(packet, old(base)) && old(base) < nextSeqNum) ==>
        base == old(base) && unacked == old(unacked) && wire == old(wire) && sentBytes == old(sentBytes)
    {
      if |packet| < HeaderSize {
        OnTimeout();
      } else {
        var h := ParseHeader(packet[..HeaderSize]).value;
        assert h == Header(SeqField(packet), AckField(packet), FlagsField(packet));
        if h.flags == AckFlag && h.ackNum == base {
          if unacked == [] {
            OnTimeout();
          } else {
            unacked := unacked[1..];
            base := h.ackNum + 1;
          }
        }
      }
    }

    /** `closeConnection`: one FIN packet, which adds nothing to `sentBytes`. */
    method Close()
      requires Valid() && !closed && base == |data| && unacked == []
      modifies this`wire, this`closed
      ensures Valid() && closed
      ensures wire == old(wire) + [FinPacket()]
    {
      assert (wire + [FinPacket()])[..|wire|] == wire;
      wire := wire + [FinPacket()];
      closed := true;
    }

    /** One pass of the outer loop: fill the window, then take the event. */
    method Step(e: Event)
      requires Valid() && !closed
      modifies this
      ensures Valid() && !closed
      ensures Pass(data, window, testCase, e, old(base), old(nextSeqNum), old(wire), base, nextSeqNum, wire)
    {
      assert SkipAt() == SkipFrom(testCase, nextSeqNum);
      FillWindow();
      match e {
        case Arrived(p) => OnPacket(p);
        case TimedOut => OnTimeout();
      }
    }

    /** `trace` holds the base, next sequence number and wire before each of
        the first `n` passes of the outer loop and after the last; each pass
        starts with chunks left to acknowledge. */
    ghost predicate Passes(events: seq<Event>, n: nat, trace: seq<(nat, nat, seq<Bytes>)>)
    {
      && n <= |events| && |trace| == n + 1
      && forall k :: 0 <= k < n ==>
        (trace[k].0 < |data| &&
         Pass(data, window, testCase, events[k], trace[k].0, trace[k].1, trace[k].2, trace[k + 1].0, trace[k + 1].1, trace[k + 1].2))
    }

    /** Extending the trace by one `Pass`. (A separate lemma keeps the loop
        that uses it small for the solver.) */
    lemma PassesStep(events: seq<Event>, n: nat, trace: seq<(nat, nat, seq<Bytes>)>, next: (nat, nat, seq<Bytes>))
      requires Passes(events, n, trace) && n < |events| && trace[n].0 < |data|
      requires Pass(data, window, testCase, events[n], trace[n].0, trace[n].1, trace[n].2, next.0, next.1, next.2)
      ensures Passes(events, n + 1, trace + [next])
    {
    }

    /** The outer loop of `goBackNClient` followed by `closeConnection`, each
        receive taking the next event. The loop exits only when every chunk
        is acknowledged; then exactly one FIN is sent, as the last datagram.
        If the events run out first, the run stops with the session open. */
    method Run(events: seq<Event>) returns (finished: bool, used: nat, ghost trace: seq<(nat, nat, seq<Bytes>)>)
      requires Valid() && !closed
      modifies this
      ensures Valid()
      ensures used <= |events|
      ensures finished == closed
      ensures finished ==> base == |data| && unacked == []
      ensures finished ==> (skippedSeqNum <==> testCase == SkipSeqNum && FaultIndex < |data|)
      ensures finished ==> wire[|wire| - 1] == FinPacket() && (forall k :: 0 <= k < |wire| - 1 ==> wire[k] != FinPacket())
      ensures !finished ==> used == |events| && base < |data|
      ensures old(base) <= base && old(nextSeqNum) <= nextSeqNum
      ensures base - old(base) <= AckCount(events[..used])
      ensures |trace| == used + 1 && trace[0] == (old(base), old(nextSeqNum), old(wire))
      ensures trace[used].0 == base && trace[used].1 == nextSeqNum
      ensures wire == trace[used].2 + (if finished then [FinPacket()] else [])
      ensures forall k :: 0 <= k < used ==>
        (trace[k].0 < |data| &&
         Pass(data, window, testCase, events[k], trace[k].0, trace[k].1, trace[k].2, trace[k + 1].0, trace[k + 1].1, trace[k + 1].2))
    {
      used := 0;
      trace := [(base, nextSeqNum, wire)];
      while base < |data| || unacked != []
        invariant Valid() && !closed && used <= |events|
        invariant old(base) <= base && old(nextSeqNum) <= nextSeqNum
        invariant base - old(base) <= AckCount(events[..used])
        invariant |trace| == used + 1 && trace[0] == (old(base), old(nextSeqNum), old(wire))
        invariant trace[used] == (base, nextSeqNum, wire)
        invariant Passes(events, used, trace)
        decreases |events| - used
      {
        if used == |events| {
          return false, used, trace;
        }
        Step(events[used]);
        AckCountStep(events, used);
        PassesStep(events, used, trace, (base, nextSeqNum, wire));
        trace := trace + [(base, nextSeqNum, wire)];
        used := used + 1;
      }
      Close();
      finished := true;
      FinIsNotData();
      forall k | 0 <= k < |wire| - 1
        ensures wire[k] != FinPacket()
      {
        assert IsDataFrame(wire[k]);
      }
    }
  }
}
