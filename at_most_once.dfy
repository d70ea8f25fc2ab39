/**
 * `AtMostOnceConsumer.listen`: the offset is auto-committed before the call,
 * the listener never acknowledges, and a processing failure is logged as a
 * lost message and swallowed.
 */
module AtMostOnceConsumer {
  import opened Messaging

  /** What one `listen` call does, given how processing ends. */
  function Listen(processing: Processing): (e: Effect)
    ensures e.acks == 0 && e.exit == Returned
    ensures e.reportedLost <==> processing.Failed?
  {
    Effect(0, Returned, processing.Failed?)
  }

  /**
   * Success and failure leave the same commit state and the same way out of
   * the call; they differ only in what is logged.
   */
  lemma SameCommitState(p1: Processing, p2: Processing)
    ensures OffsetCommitted(AtMostOnce, Listen(p1)) == OffsetCommitted(AtMostOnce, Listen(p2))
    ensures Listen(p1).acks == Listen(p2).acks && Listen(p1).exit == Listen(p2).exit
  {
  }

  /** A failed record is reported lost and is never delivered again. */
  lemma FailedRecordIsLost(processing: Processing)
    requires processing.Failed?
    ensures Listen(processing).reportedLost
    ensures !Redelivered(AtMostOnce, Listen(processing))
  {
  }
}
