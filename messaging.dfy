/**
 * What the listeners share: the outcome of the injected message processing,
 * how a listener call ends, Spring's `Acknowledgment` handle and the record's
 * headers map, both of which a call changes in place.
 */
module Messaging {

  /** The outcome of `processMessage`: it returns, or throws an exception with a message. */
  datatype Processing = Processed | Failed(error: string)

  /** How a listener call ends: it returns, or an exception leaves it. */
  datatype Exit = Returned | Threw(error: string)

  /**
   * What one listener call does that the container can observe: how often it
   * acknowledged, how it ended, and whether it logged the record as lost.
   */
  datatype Effect = Effect(acks: nat, exit: Exit, reportedLost: bool)

  /** The three delivery guarantees the listeners demonstrate. */
  datatype Guarantee = AtMostOnce | AtLeastOnce | ExactlyOnce

  /**
   * Whether the record's offset counts as committed once a call with effect e is
   * over, as the listeners' own comments describe their container set-ups:
   * auto-commit before processing for at-most-once, commit on acknowledge for
   * at-least-once, and for exactly-once an acknowledge that is rolled back
   * with the transaction when the call throws.
   */
  predicate OffsetCommitted(g: Guarantee, e: Effect)
  {
    match g
    case AtMostOnce => true
    case AtLeastOnce => e.acks > 0
    case ExactlyOnce => e.acks > 0 && e.exit.Returned?
  }

  /** A record whose offset is not committed is delivered again on a later poll. */
  predicate Redelivered(g: Guarantee, e: Effect)
  {
    !OffsetCommitted(g, e)
  }

  /** Spring's `Acknowledgment`: counts the calls of `acknowledge()`. */
  class Acknowledgment {
    var count: nat

    constructor ()
      ensures count == 0
    {
      count := 0;
    }

    method Acknowledge()
      modifies this
      ensures count == old(count) + 1
    {
      count := count + 1;
    }
  }

  /** The `@Headers` map of one delivery; each value is held as its `toString()` text. */
  class Headers {
    var entries: map<string, string>

    constructor (initial: map<string, string>)
      ensures entries == initial
    {
      entries := initial;
    }

    /** `headers.put(k, v)`. */
    method Put(k: string, v: string)
      modifies this
      ensures entries == old(entries)[k := v]
    {
      entries := entries[k := v];
    }
  }
}
