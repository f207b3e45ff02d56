/** Packet framing of the file-transfer protocol: a 6-byte header in network
    byte order (`'!HHH'`: sequence number, acknowledgement number, flags, each
    an unsigned 16-bit field) followed directly by the payload. There is no
    length field; whatever follows the header is payload. */
module Codec {

  datatype Option<T> = None | Some(value: T)

  type byte = x: int | 0 <= x < 0x100
  type u16 = x: int | 0 <= x < 0x1_0000
  type Bytes = seq<byte>

  const HeaderSize: nat := 6
  const DataSize: nat := 994

  const FinFlag: u16 := 2
  const AckFlag: u16 := 4
  const SynFlag: u16 := 8

  function Min(a: int, b: int): int { if a <= b then a else b }

  datatype Header = Header(seqNum: u16, ackNum: u16, flags: u16)

  /** One big-endian 16-bit field. */
  function Pack16(x: u16): (r: Bytes)
    ensures |r| == 2 && (r[0] as int) * 0x100 + r[1] == x
  {
    [x / 0x100, x % 0x100]
  }

  function Unpack16(hi: byte, lo: byte): u16
  {
    (hi as int) * 0x100 + lo
  }

  /** `create_packet`: the header followed by the payload. `struct.pack`
      raises for a field outside 0..65535, which the u16 type excludes. */
  function CreatePacket(seqNum: u16, ackNum: u16, flags: u16, data: Bytes): (p: Bytes)
    ensures |p| == HeaderSize + |data|
    ensures p[HeaderSize..] == data
  {
    Pack16(seqNum) + Pack16(ackNum) + Pack16(flags) + data
  }

  /** The three header fields of a datagram of at least six bytes. */
  function SeqField(p: Bytes): u16
    requires |p| >= HeaderSize
  {
    Unpack16(p[0], p[1])
  }

  function AckField(p: Bytes): u16
    requires |p| >= HeaderSize
  {
    Unpack16(p[2], p[3])
  }

  function FlagsField(p: Bytes): u16
    requires |p| >= HeaderSize
  {
    Unpack16(p[4], p[5])
  }

  /** `parse_header`: `struct.unpack('!HHH', h)` accepts exactly 6 bytes and
      raises otherwise; the failure is `None`. */
  function ParseHeader(h: Bytes): (r: Option<Header>)
    ensures r.Some? <==> |h| == HeaderSize
  {
    if |h| != HeaderSize then None
    else Some(Header(SeqField(h), AckField(h), FlagsField(h)))
  }

  /** What both receive loops do with a datagram: slice `packet[:6]` and
      `packet[6:]`, then unpack the first slice. The unpack fails exactly when
      the datagram is shorter than the header. */
  function SplitPacket(p: Bytes): (r: Option<(Header, Bytes)>)
    ensures r.Some? <==> |p| >= HeaderSize
    ensures r.Some? ==> r.value.1 == p[HeaderSize..] && Some(r.value.0) == ParseHeader(p[..HeaderSize])
  {
    if |p| < HeaderSize then None
    else Some((Header(SeqField(p), AckField(p), FlagsField(p)), p[HeaderSize..]))
  }

  /** A header-only packet, as every control packet (SYN, SYN+ACK, ACK, FIN) is. */
  function ControlPacket(seqNum: u16, ackNum: u16, flags: u16): (p: Bytes)
    ensures |p| == HeaderSize
  {
    CreatePacket(seqNum, ackNum, flags, [])
  }

  /** Decoding undoes encoding: the first six bytes of a packet parse back to
      the three fields and the rest is the payload. */
  lemma HeaderRoundTrip(seqNum: u16, ackNum: u16, flags: u16, data: Bytes)
    ensures var p := CreatePacket(seqNum, ackNum, flags, data);
      SeqField(p) == seqNum && AckField(p) == ackNum && FlagsField(p) == flags
    ensures ParseHeader(CreatePacket(seqNum, ackNum, flags, data)[..HeaderSize]) == Some(Header(seqNum, ackNum, flags))
    ensures SplitPacket(CreatePacket(seqNum, ackNum, flags, data)) == Some((Header(seqNum, ackNum, flags), data))
  {
    var p := CreatePacket(seqNum, ackNum, flags, data);
    assert (p[0] as int) * 0x100 + p[1] == seqNum;
    assert (p[2] as int) * 0x100 + p[3] == ackNum;
    assert (p[4] as int) * 0x100 + p[5] == flags;
  }

  /** Encoding undoes decoding: every datagram of at least six bytes is the
      packet built from its own parsed fields and payload. */
  lemma SplitInverse(p: Bytes)
    requires |p| >= HeaderSize
    ensures SplitPacket(p).Some?
    ensures CreatePacket(SplitPacket(p).value.0.seqNum, SplitPacket(p).value.0.ackNum,
                         SplitPacket(p).value.0.flags, SplitPacket(p).value.1) == p
  {
    var h := SplitPacket(p).value.0;
    var q := CreatePacket(h.seqNum, h.ackNum, h.flags, p[HeaderSize..]);
    assert Pack16(h.seqNum) == p[0..2];
    assert Pack16(h.ackNum) == p[2..4];
    assert Pack16(h.flags) == p[4..6];
    assert q == p[0..2] + p[2..4] + p[4..6] + p[6..];
    assert p == p[0..2] + p[2..4] + p[4..6] + p[6..];
  }

  /** Two packets with equal fields and payload are the same bytes and, the
      other way round, equal bytes carry equal fields and payload. */
  lemma CreatePacketInjective(s1: u16, a1: u16, f1: u16, d1: Bytes, s2: u16, a2: u16, f2: u16, d2: Bytes)
    ensures CreatePacket(s1, a1, f1, d1) == CreatePacket(s2, a2, f2, d2) <==> s1 == s2 && a1 == a2 && f1 == f2 && d1 == d2
  {
    if CreatePacket(s1, a1, f1, d1) == CreatePacket(s2, a2, f2, d2) {
      HeaderRoundTrip(s1, a1, f1, d1);
      HeaderRoundTrip(s2, a2, f2, d2);
    }
  }

  /** Python's `&` on non-negative integers, bit by bit from the low end. */
  function And(a: nat, b: nat): (r: nat)
    ensures r <= a && r <= b
    decreases a
  {
    if a == 0 || b == 0 then 0
    else 2 * And(a / 2, b / 2) + (if a % 2 == 1 && b % 2 == 1 then 1 else 0)
  }

  /** Every bit set in `m` is set in `f`. */
  predicate Covers(f: nat, m: nat)
    decreases m
  {
    m == 0 || ((m % 2 == 1 ==> f % 2 == 1) && Covers(f / 2, m / 2))
  }

  /** `f & m == m` holds exactly when all bits of the mask are set in `f`. */
  lemma {:induction false} AndMask(f: nat, m: nat)
    ensures And(f, m) == m <==> Covers(f, m)
    decreases m
  {
    if m != 0 {
      AndMask(f / 2, m / 2);
      var low := if f % 2 == 1 && m % 2 == 1 then 1 else 0;
      assert And(f, m) == 2 * And(f / 2, m / 2) + low;
    }
  }

  /** The flag bits of the wire format, read arithmetically. */
  predicate SynSet(flags: nat) { (flags / 8) % 2 == 1 }
  predicate AckSet(flags: nat) { (flags / 4) % 2 == 1 }
  predicate FinSet(flags: nat) { (flags / 2) % 2 == 1 }

  /** The three mask tests the program performs (`flags & 8 == 8`,
      `flags & 12 == 12`, `flags & 2 == 2`) test the intended bits. */
  lemma FlagTests(f: nat)
    ensures And(f, SynFlag) == SynFlag <==> SynSet(f)
    ensures And(f, SynFlag + AckFlag) == SynFlag + AckFlag <==> SynSet(f) && AckSet(f)
    ensures And(f, FinFlag) == FinFlag <==> FinSet(f)
  {
    SynTest(f);
    SynAckTest(f);
    FinTest(f);
  }

  lemma SynTest(f: nat)
    ensures And(f, SynFlag) == SynFlag <==> SynSet(f)
  {
    AndMask(f, 8);
    assert f / 2 / 2 == f / 4 && f / 4 / 2 == f / 8;
    assert Covers(f, 8) == Covers(f / 2, 4) == Covers(f / 4, 2) == Covers(f / 8, 1);
  }

  lemma SynAckTest(f: nat)
    ensures And(f, SynFlag + AckFlag) == SynFlag + AckFlag <==> SynSet(f) && AckSet(f)
  {
    AndMask(f, 12);
    assert f / 2 / 2 == f / 4 && f / 4 / 2 == f / 8;
    assert Covers(f, 12) == Covers(f / 2, 6) == Covers(f / 4, 3);
    assert Covers(f / 4, 3) == ((f / 4) % 2 == 1 && Covers(f / 8, 1));
  }

  lemma FinTest(f: nat)
    ensures And(f, FinFlag) == FinFlag <==> FinSet(f)
  {
    AndMask(f, 2);
    assert Covers(f, 2) <==> Covers(f / 2, 1);
  }

  /** Sum of `len(packet[6:])` over a sequence of sent packets. */
  function PayloadLen(p: Bytes): nat
  {
    if |p| >= HeaderSize then |p| - HeaderSize else 0
  }

  function PayloadTotal(ps: seq<Bytes>): nat
  {
    if ps == [] then 0 else PayloadTotal(ps[..|ps| - 1]) + PayloadLen(ps[|ps| - 1])
  }

  lemma {:induction false} PayloadTotalAppend(a: seq<Bytes>, b: seq<Bytes>)
    ensures PayloadTotal(a + b) == PayloadTotal(a) + PayloadTotal(b)
    decreases |b|
  {
    if b != [] {
      assert (a + b)[..|a + b| - 1] == a + b[..|b| - 1];
      PayloadTotalAppend(a, b[..|b| - 1]);
    } else {
      assert a + b == a;
    }
  }
}
