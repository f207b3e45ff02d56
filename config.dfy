/** Run-time options of a transfer that the protocol core reads. */
module Config {

  /** The `-t/--testCase` option: no fault injection, the receiver drops the
      packet that arrives while it expects sequence number 4 (`skip_ack`), or
      the sender queues packet 4 without transmitting it (`skip_seq_num`).
      The receiver clears its option to the empty string once the hook has
      fired; that value behaves as `NoTest`. */
  datatype TestCase = NoTest | SkipAck | SkipSeqNum

  /** The sequence number at which both fault hooks act. */
  const FaultIndex: nat := 4
}
