/**
 * `ExactlyOnceConsumer.listen`, run inside a transaction: acknowledge after
 * processing returned; on a processing failure rethrow the same exception so
 * that the transaction is rolled back.
 */
module ExactlyOnceConsumer {
  import opened Messaging

  /** What one `listen` call does, given how processing ends. */
  function ListenEffect(processing: Processing): (e: Effect)
    ensures (e.acks == 1 && e.exit == Returned) || (e.acks == 0 && e.exit.Threw?)
    ensures e.acks == 1 <==> processing.Processed?
    ensures processing.Failed? ==> e.exit == Threw(processing.error)
    ensures !e.reportedLost
  {
    match processing
    case Processed => Effect(1, Returned, false)
    case Failed(error) => Effect(0, Threw(error), false)
  }

  /** The listener step against the acknowledgment handle it is given. */
  method Listen(processing: Processing, ack: Acknowledgment) returns (exit: Exit)
    modifies ack
    ensures ack.count == old(ack.count) + ListenEffect(processing).acks
    ensures exit == ListenEffect(processing).exit
  {
    match processing {
      case Processed =>
        ack.Acknowledge();
        exit := Returned;
      case Failed(error) =>
        exit := Threw(error);
    }
  }

  /**
   * A call is committed exactly when processing succeeded, and an acknowledge
   * is never left standing by a call that threw (it would be rolled back).
   */
  lemma CommitIffProcessed(processing: Processing)
    ensures OffsetCommitted(ExactlyOnce, ListenEffect(processing)) <==> processing.Processed?
    ensures processing.Failed? ==> Redelivered(ExactlyOnce, ListenEffect(processing))
  {
  }
}
