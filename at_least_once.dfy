/**
 * `AtLeastOnceConsumer.listen`: process the record, acknowledge only after
 * processing returned, and swallow a processing failure so that the record
 * stays unacknowledged.
 */
module AtLeastOnceConsumer {
  import opened Messaging

  /** What one `listen` call does, given how processing ends. */
  function ListenEffect(processing: Processing): (e: Effect)
    ensures e.acks <= 1
    ensures e.acks == 1 <==> processing.Processed?
    ensures e.exit == Returned && !e.reportedLost
  {
    match processing
    case Processed => Effect(1, Returned, false)
    case Failed(_) => Effect(0, Returned, false)
  }

  /** The listener step against the acknowledgment handle it is given. */
  method Listen(processing: Processing, ack: Acknowledgment) returns (exit: Exit)
    modifies ack
    ensures ack.count == old(ack.count) + ListenEffect(processing).acks
    ensures exit == ListenEffect(processing).exit
  {
    match processing {
      case Processed =>
        ack.Acknowledge();
      case Failed(_) =>
        // the failure is logged and not rethrown; no acknowledge
    }
    exit := Returned;
  }

  /**
   * Under at-least-once the offset is committed exactly when processing
   * succeeded; a failed record is delivered again rather than lost.
   */
  lemma FailedRecordIsRedelivered(processing: Processing)
    ensures OffsetCommitted(AtLeastOnce, ListenEffect(processing)) <==> processing.Processed?
    ensures processing.Failed? ==> Redelivered(AtLeastOnce, ListenEffect(processing))
  {
  }
}
