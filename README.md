# Go-Back-N file transfer over UDP, modelled in Dafny

This project models the protocol core of `application.py`. The program is a
client and server that move one file over UDP with a Go-Back-N protocol. The
model covers five parts, one module each, plus a module for an end-to-end
session:

- **Codec** (`codec.dfy`): the packet framing. A packet is a 6-byte
  big-endian header (sequence number, acknowledgement number, flags) followed
  by the payload. The module also models the `&` flag tests.
- **Handshake** (`handshake.dfy`): the two handshake decisions. The server
  answers SYN with SYN+ACK. The client answers SYN+ACK with an ACK.
- **Chunking** (`chunking.dfy`): the loop of `readDataFromFile` that cuts
  the file into chunks of at most 994 bytes.
- **SenderWindow** (`sender.dfy`): the `goBackNClient` state machine, as a
  class.
  - State: `base`, `nextSeqNum`, the unacked list, `sentBytes`, and a log of
    every datagram sent.
  - Steps: fill the window, handle a received datagram, handle a timeout,
    and close with FIN.
  - It includes the `skip_seq_num` fault hook.
- **ReceiverSequencer** (`receiver.dfy`): `gbnSwServer` and the body of the
  server receive loop, as a class.
  - State: `expected_seq_num`, `skipped_ack`, the test case, the log of file
    writes and the log of ACKs sent.
  - It includes the `skip_ack` fault hook.
- **Transfer** (`transfer.dfy`): a sender and a receiver joined by a channel
  that loses, reorders and corrupts nothing.
  - Each receive by the sender takes the oldest unread ACK. It times out only
    when no ACK is pending.
  - Proved: the loops end, exactly one FIN closes the server loop, and the
    file written equals the file read, under every combination of test
    cases.

Sockets become inputs and logs:

- `sendto` appends to a log (`wire` for the sender, `replies` for the
  receiver).
- A receive on the sender's side is an `Event`: a datagram, or a
  timeout/failure.
- The output file is the sequence of `file.write` payloads (`written`).
  `restructFile` writes nothing, because `recv_buffer` is never appended to.

## Model

| member | source | states |
|---|---|---|
| Codec.CreatePacket | Portfolio2-main/application.py:109-112 | the packet is the header followed by the payload: length 6 + len(data), bytes from 6 on equal the payload |
| Codec.ParseHeader | Portfolio2-main/application.py:121-123 | unpacking succeeds exactly on a 6-byte input and fails otherwise |
| Codec.SplitPacket | Portfolio2-main/application.py:472-475 | splitting a datagram into header and payload succeeds exactly when it has at least 6 bytes; the payload is everything after byte 6 and the header is what `parse_header` makes of the first 6 |
| Codec.HeaderRoundTrip | Portfolio2-main/application.py:109-123 | decoding undoes encoding: the header of `create_packet(s, a, f, d)` parses back to `(s, a, f)` and the rest is `d` |
| Codec.SplitInverse | Portfolio2-main/application.py:109-123 | encoding undoes decoding: every datagram of at least 6 bytes is rebuilt exactly from its parsed fields and payload |
| Codec.CreatePacketInjective | Portfolio2-main/application.py:109-112 | two packets are equal if and only if their fields and payloads are equal |
| Codec.AndMask | Portfolio2-main/application.py:233 | `f & m == m` holds if and only if every bit of `m` is set in `f` |
| Codec.FlagTests | Portfolio2-main/application.py:271 | the tests `& 8 == 8`, `& 12 == 12`, `& 2 == 2` hold exactly when bit SYN, bits SYN and ACK, and bit FIN are set |
| Handshake.ServerHandshake | Portfolio2-main/application.py:229-243 | success if and only if the header unpacks and its SYN bit is set; on success exactly one SYN+ACK `(0, 0, 12)` is sent, otherwise nothing |
| Handshake.ClientHandshake | Portfolio2-main/application.py:254-283 | SYN is always sent first; success if and only if a reply arrived, unpacks, and has both SYN and ACK set; on success one more packet, ACK `(0, recv_seq, 4)`, otherwise nothing more |
| Handshake.HandshakeAgreement | Portfolio2-main/application.py:229-283 | with no loss both sides succeed, and the client's final ACK is a header-only packet with the FIN bit clear |
| Handshake.ControlHeader | Portfolio2-main/application.py:213 | a control packet is exactly its header and parses back to its fields |
| Chunking.ReadChunks | Portfolio2-main/application.py:182-187 | the read loop yields exactly the chunk sequence `Chunks(content)` |
| Chunking.FlattenChunks | Portfolio2-main/application.py:182-187 | concatenating the chunks gives back the file's bytes |
| Chunking.ChunkSizes | Portfolio2-main/application.py:182-187 | every chunk has 1 to 994 bytes, and every chunk but the last has exactly 994 |
| Chunking.ChunkCount | Portfolio2-main/application.py:182-187 | there are ceil(len / 994) chunks; none for an empty file |
| SenderWindow.DataPacketInjective | Portfolio2-main/application.py:314 | the data packets of two chunks are equal if and only if the chunk indices are equal |
| SenderWindow.TransmissionContents | Portfolio2-main/application.py:312-331 | a pass of the inner loop sends chunk `i` if and only if `i` is in the pass's range and is not the skipped chunk |
| SenderWindow.TransmissionFrames | Portfolio2-main/application.py:312-331 | every packet of a pass is a data packet (flags 0) |
| SenderWindow.TransmissionPayload | Portfolio2-main/application.py:330 | the payload bytes of a pass, counted as `len(packet[6:])` per packet, are the sum of the sizes of the chunks it carries |
| SenderWindow.FinIsNotData | Portfolio2-main/application.py:213 | the FIN packet is not a data packet |
| SenderWindow.Sender.constructor | Portfolio2-main/application.py:298-306 | the initial state: base and next 0, nothing unacked, nothing sent, hook not fired, with the window invariant holding |
| SenderWindow.Sender.FillWindow | Portfolio2-main/application.py:312-331 | keeps the window invariant; next becomes min(base + window, len(dataArr)); exactly the new chunks are sent in order, minus chunk 4 when the `skip_seq_num` hook fires; `sent_bytes` grows by the sizes of the chunks sent; the hook is marked fired exactly when it fired |
| SenderWindow.Sender.FillStep | Portfolio2-main/application.py:312-331 | one pass of the inner loop extends the chunks sent, the bytes counted and the hook flag by exactly one chunk's worth |
| SenderWindow.Sender.Withhold | Portfolio2-main/application.py:318-324 | under `skip_seq_num` at chunk 4 the packet joins the unacked list, nothing is sent, and the hook is marked fired |
| SenderWindow.Sender.Transmit | Portfolio2-main/application.py:326-331 | otherwise the packet joins the unacked list, is sent, and its chunk's size is added to `sent_bytes` |
| SenderWindow.Sender.SendPacket | Portfolio2-main/application.py:326-330 | one `sendto` of a data packet: it is appended to the wire and its payload size to `sent_bytes`, keeping the count equal to the wire's payload total |
| SenderWindow.Sender.QueueNext | Portfolio2-main/application.py:313-331 | one chunk is queued; it is sent, and its size added to `sent_bytes`, unless it is the one the hook withholds; next grows by exactly one |
| SenderWindow.Sender.OnTimeout | Portfolio2-main/application.py:343-347 | every unacked packet is resent oldest first with identical bytes; base, next and the list stay the same; `sent_bytes` grows by the total size of chunks `base .. next-1` |
| SenderWindow.Sender.Resend | Portfolio2-main/application.py:344-347 | one resend: the `k`-th unacked packet goes out again, and its chunk's size is added to `sent_bytes` |
| SenderWindow.Sender.OnPacket | Portfolio2-main/application.py:333-347 | only a pure ACK (flags exactly 4) for exactly `base` changes state: it pops the oldest entry and advances base by one; a datagram shorter than the header causes a full resend; anything else changes nothing |
| SenderWindow.Sender.Close | Portfolio2-main/application.py:207-217 | allowed only when every chunk is acknowledged; sends exactly one FIN `(0, 0, 2)` |
| SenderWindow.Sender.Step | Portfolio2-main/application.py:310-347 | one pass of the outer loop keeps the window invariant and is exactly `Pass`: next becomes min(base + window, len(dataArr)); the wire gains the new chunks of the window (less the withheld chunk 4), then the whole window again if the receive times out or its datagram is too short to unpack; base grows by one exactly on a pure ACK for base while chunks remain, and is otherwise unchanged |
| SenderWindow.Sender.Run | Portfolio2-main/application.py:295-350 | the loop stops only with every chunk acknowledged and nothing unacked; then the last datagram sent is the FIN and no earlier one is; the `skip_seq_num` hook fired if and only if it was active and chunk 4 exists; base advances by at most the number of pure ACKs among the events consumed; the ghost trace records base, next and the wire before each pass, every pass starts with chunks left and is the `Pass` of its event, and the final wire is the trace's last plus the FIN when the loop finished |
| ReceiverSequencer.Classify | Portfolio2-main/application.py:472-487 | shorter than 6 bytes: the unpack raises; exactly 6 bytes: FIN if the FIN bit is set, else skipped; longer: passed to `gbnSwServer` |
| ReceiverSequencer.Receiver.constructor | Portfolio2-main/application.py:464-467 | the counter starts at 0 with nothing written and no ACK sent |
| ReceiverSequencer.Receiver.HandleData | Portfolio2-main/application.py:363-384 | at counter 4 with `skip_ack` pending, the packet is dropped (no write, no ACK, no advance) and the hook is disabled for good; otherwise the expected packet is written and ACKed `(0, n, 4)` and the counter grows by one; anything else changes nothing; the counter never decreases |
| ReceiverSequencer.Receiver.OnDatagram | Portfolio2-main/application.py:469-490 | a data datagram goes to `gbnSwServer` with its sequence number and payload, and its payload size is added to `received_bytes`; a header-only or malformed datagram changes nothing |
| ReceiverSequencer.Receiver.Receive | Portfolio2-main/application.py:470-490 | one pass of the receive loop: the datagram is classified, the counter/hook trace is extended by one `Moves` step, and when the datagram is written it is credited (`Sourced`) as the one on which the counter moved (`Paired`) |
| ReceiverSequencer.Receiver.Serve | Portfolio2-main/application.py:469-490 | the loop stops at the first FIN (closed) or the first datagram too short to unpack (crash); every datagram before that was data or skipped; the ghost traces of the counter and of the pending `skip_ack` hook start at the old state, end at the new one, and every datagram moves them as `Moves` says: a non-data datagram changes nothing, a pending hook at counter 4 drops the packet and is used up, otherwise the counter advances exactly when the packet carries its value; the output only grows at its end, and its `j`-th new chunk is the payload of the datagram on which the counter moved from `old(expected) + j` to the next value (`Sourced`, `Paired`), so a later duplicate is never the one written |
| Transfer.DataPacketFields | Portfolio2-main/application.py:472-474 | a data packet reaches the receiver as data, carrying its chunk index and its chunk's bytes |
| Transfer.AckFields | Portfolio2-main/application.py:338 | the receiver's ACK for `n` passes the sender's test when base is `n` |
| Transfer.ControlClasses | Portfolio2-main/application.py:476-485 | the sender's FIN ends the server loop, and the client's handshake ACK is skipped by it |
| Transfer.DeliverOne | Portfolio2-main/application.py:363-384 | the data packet of chunk `i` goes through the receive loop: the counter and the `skip_ack` hook move exactly as `Moves` says (the hook only at counter 4); the receiver keeps its state or accepts exactly chunk `i` as its next, and its output stays the accepted prefix of the chunks |
| Transfer.DeliverRange | Portfolio2-main/application.py:469-490 | the packets of one pass, `Transmission(data, lo, hi, skip)`, are handed to the receive loop in order: a trace of the receiver's counter and hook over exactly those packets starts at the old state, ends at the new one and moves by `Moves` at each; the output stays the accepted prefix, and a first packet the receiver expects is accepted or uses up the hook |
| Transfer.DeliverNext | Portfolio2-main/application.py:469-490 | one pass of that loop: chunk `i` is handed over unless it is the withheld one, the transmission and the receiver trace grow by exactly that packet and its move, and the output stays the accepted prefix |
| Transfer.Send | Portfolio2-main/application.py:312-331 | filling the window leaves base unchanged and sets next to min(base + window, len(dataArr)); what goes on the wire is exactly the new chunks of the window less the withheld one, and a receiver trace over exactly those packets says each was handed to the receive loop in order and moved it by `Moves`; the two endpoints stay in step |
| Transfer.ReadAck | Portfolio2-main/application.py:333-341 | when the receiver has acknowledged `base`, reading that ACK advances base by one, keeps next and sends nothing |
| Transfer.Retransmit | Portfolio2-main/application.py:343-347 | when no ACK is pending, exactly the window `base .. next-1` is resent, with a receiver trace over exactly those packets (each handed to the receive loop in order, moving it by `Moves`); base and next are kept, and the receiver either accepts chunk `base` or uses up the `skip_ack` hook |
| Transfer.Answer | Portfolio2-main/application.py:333-347 | the receive after the window is filled: base advances by one and nothing is sent when the receiver has acknowledged `base`; otherwise base stays and exactly the window `base .. next-1` is resent; next is kept and the pass makes progress on base, the counter or the hook |
| Transfer.Round | Portfolio2-main/application.py:310-347 | one pass of the outer loop keeps both endpoints in step and sets next to min(base + window, len(dataArr)); when base advances (by one) the pass sent only the new chunks of the window, and when it does not the pass also resent the whole window; each pass advances base, or the receiver's counter, or uses up the `skip_ack` hook |
| Transfer.Transfer | Portfolio2-main/application.py:295-350 | with no loss and any test cases, the sender's loop ends, and its single FIN is classified as FIN by the server loop, after which the receiver has written exactly `dataArr`, chunk by chunk |
| Transfer.Session | Portfolio2-main/application.py:393-407 | an empty file ends the client with no transfer; otherwise the handshake succeeds and the server's output is byte for byte the client's file |

## Left out

- Command-line parsing and validation (`argparse`, `check_IP`, `check_port`, `check_testCase`, `check_windowSize`, `convertToInt`, `main`): the window size and test cases are parameters. The window needs only `window >= 1`; the command line further restricts it to 3, 5 or 10.
- Sockets, `bind`, `settimeout` and `close`: a send appends to a log, and a receive on the sender's side is an event (a datagram, or a timeout/failure).
- Truncation of datagrams by the `recvfrom` buffer size (6 bytes during the handshake, 1000 bytes afterwards): the models receive datagrams already cut to those sizes. Data packets are never longer than 1000 bytes.
- File open, read, write and the `FileNotFoundError`/`IOError` paths: the file's contents are a parameter, and the output file is the log of `file.write` payloads.
- `restructFile`: it sorts and writes `recv_buffer`, which is never appended to, so it writes nothing.
- `calculateThroughput`, `time.time()` and the throughput report: floating point and the wall clock.
- `parse_flags`, which is never called, and all `print` output.
- Timing of the 500 ms timeout: Transfer.Transfer lets the sender time out exactly when no ACK is pending, which is what a lossless channel with prompt delivery gives.
- Transfer.Transfer: proved only for the lossless channel. Under loss the sender steps (`Sender.Run` with arbitrary events) keep their invariants and each pass follows `Pass`, but termination is not claimed.
- SenderWindow.Sender.constructor: requires at most 65536 chunks. From chunk 65536 on, `struct.pack` raises in the source; the model excludes such files instead of modelling the crash.
- Transfer.Session: requires the file to fit in 65536 chunks, for the same reason.
- Fault hooks in the source depend on a spelled test-case string. The model uses an enumeration with the three values the command line accepts.
- The skip_ack hook in the code drops whatever data packet arrives while the counter is 4: no write, no ACK. It does not accept the packet and withhold only its ACK, as its log message "Skipping ACK" suggests. The model follows the code.
