/**
 * `EnhancedConsumer.listen`: a record that fails validation is dead-lettered
 * with reason VALIDATION_ERROR and acknowledged; a valid record that is
 * processed is acknowledged; a processing failure reads and bumps the
 * "retry_count" header, leaves the record unacknowledged while fewer than 3
 * retries were counted, and otherwise dead-letters it with reason MAX_RETRIES
 * and acknowledges. "Dead-lettering" is `sendToDLQ`: it adds two error headers
 * and logs the record; it publishes nothing.
 */
module EnhancedConsumer {
  import opened Wrappers
  import opened JavaText
  import opened Messaging

  const RetryCountHeader: string := "retry_count"
  const ErrorReasonHeader: string := "error_reason"
  const ErrorDescriptionHeader: string := "error_description"
  const ValidationError: string := "VALIDATION_ERROR"
  const MaxRetries: string := "MAX_RETRIES"
  /** Failures counted before a record is dead-lettered. */
  const RetryLimit: int := 3

  /** One `sendToDLQ` call as its log line records it. */
  datatype DlqEntry = DlqEntry(key: string, message: Option<string>, reason: string, description: string)

  // ------------------------------------------------------------ validation

  /** `isValidMessage`: present, non-empty and free of the text "error". */
  predicate IsValidMessage(message: Option<string>)
  {
    message.Some? && message.value != [] && !Contains(message.value, "error")
  }

  lemma IsValidMessageMeaning(message: Option<string>)
    ensures IsValidMessage(message)
        <==> message.Some? && message.value != []
             && forall i :: !OccursAt(message.value, "error", i)
  {
  }

  /** The text of the `IllegalArgumentException` a failed validation throws. */
  function InvalidMessageText(message: Option<string>): string
  {
    "Mensaje inválido: " + (if message.None? then "null" else message.value)
  }

  // ------------------------------------------------------- retry counter

  /** The value `getRetryCount` returns: the parsed header, or 0 when absent or unparsable. */
  function ReadRetryCount(h: map<string, string>): (n: JInt)
    ensures RetryCountHeader !in h ==> n == 0
    ensures RetryCountHeader in h && ParseInt(h[RetryCountHeader]).None? ==> n == 0
    ensures RetryCountHeader in h && ParseInt(h[RetryCountHeader]).Some? ==> n == ParseInt(h[RetryCountHeader]).value
  {
    if RetryCountHeader in h then
      match ParseInt(h[RetryCountHeader])
      case Some(v) => v
      case None => 0
    else 0
  }

  /** The map `getRetryCount` leaves behind: the counter written back one higher (Java `int` addition). */
  function BumpRetryCount(h: map<string, string>): (h': map<string, string>)
    ensures h'.Keys == h.Keys + {RetryCountHeader}
    ensures forall k | k in h && k != RetryCountHeader :: h'[k] == h[k]
    ensures ReadRetryCount(h') == WrapInt(ReadRetryCount(h) + 1)
  {
    var next := WrapInt(ReadRetryCount(h) + 1);
    ShowIntRoundTrip(next);
    h[RetryCountHeader := ShowInt(next)]
  }

  // ------------------------------------------------------- error headers

  /** The map `sendToDLQ` leaves behind: exactly the two error entries set. */
  function WithErrorHeaders(h: map<string, string>, reason: string, description: string): (h': map<string, string>)
    ensures h'.Keys == h.Keys + {ErrorReasonHeader, ErrorDescriptionHeader}
    ensures h'[ErrorReasonHeader] == reason && h'[ErrorDescriptionHeader] == description
    ensures forall k | k in h && k != ErrorReasonHeader && k != ErrorDescriptionHeader :: h'[k] == h[k]
  {
    h[ErrorReasonHeader := reason][ErrorDescriptionHeader := description]
  }

  // -------------------------------------------------------- listen, spec

  /** Everything one `listen` call changes: acknowledgments, the headers map and the DLQ log. */
  datatype Handling = Handling(acks: nat, headers: map<string, string>, dlq: seq<DlqEntry>)

  /** The effect of `listen` on a record with the given headers, processing ending as given. */
  function Handle(key: string, message: Option<string>, h: map<string, string>, processing: Processing): (r: Handling)
    ensures r.acks <= 1 && |r.dlq| <= 1
    ensures r.acks == 1 <==> !IsValidMessage(message) || processing.Processed? || ReadRetryCount(h) >= RetryLimit
    ensures r.dlq != [] <==> !IsValidMessage(message) || (processing.Failed? && ReadRetryCount(h) >= RetryLimit)
    ensures r.dlq != [] ==> r.acks == 1 && r.dlq[0].key == key && r.dlq[0].message == message
    ensures r.acks == 0 ==> ReadRetryCount(r.headers) == ReadRetryCount(h) + 1
  {
    if !IsValidMessage(message) then
      var description := InvalidMessageText(message);
      Handling(1, WithErrorHeaders(h, ValidationError, description),
               [DlqEntry(key, message, ValidationError, description)])
    else if processing.Processed? then
      Handling(1, h, [])
    else
      var count := ReadRetryCount(h);
      var h1 := BumpRetryCount(h);
      if count < RetryLimit then
        Handling(0, h1, [])
      else
        Handling(1, WithErrorHeaders(h1, MaxRetries, processing.error),
                 [DlqEntry(key, message, MaxRetries, processing.error)])
  }

  /** An invalid record is dead-lettered as VALIDATION_ERROR and acknowledged; the counter is left alone. */
  lemma InvalidIsDeadLettered(key: string, message: Option<string>, h: map<string, string>, processing: Processing)
    requires !IsValidMessage(message)
    ensures var r := Handle(key, message, h, processing);
            r.acks == 1
            && r.dlq == [DlqEntry(key, message, ValidationError, InvalidMessageText(message))]
            && r.headers == WithErrorHeaders(h, ValidationError, InvalidMessageText(message))
  {
  }

  /** A valid record that is processed is acknowledged, with nothing dead-lettered and no header touched. */
  lemma ProcessedIsAcknowledged(key: string, message: Option<string>, h: map<string, string>)
    requires IsValidMessage(message)
    ensures Handle(key, message, h, Processed) == Handling(1, h, [])
  {
  }

  /** A failure with fewer than 3 counted retries is neither acknowledged nor dead-lettered. */
  lemma EarlyFailureIsRetried(key: string, message: Option<string>, h: map<string, string>, error: string)
    requires IsValidMessage(message) && ReadRetryCount(h) < RetryLimit
    ensures var r := Handle(key, message, h, Failed(error));
            r.acks == 0 && r.dlq == [] && r.headers == BumpRetryCount(h)
  {
  }

  /** A failure with 3 or more counted retries is dead-lettered as MAX_RETRIES and acknowledged. */
  lemma ExhaustedFailureIsDeadLettered(key: string, message: Option<string>, h: map<string, string>, error: string)
    requires IsValidMessage(message) && ReadRetryCount(h) >= RetryLimit
    ensures var r := Handle(key, message, h, Failed(error));
            r.acks == 1
            && r.dlq == [DlqEntry(key, message, MaxRetries, error)]
            && r.headers == WithErrorHeaders(BumpRetryCount(h), MaxRetries, error)
  {
  }

  /**
   * If each delivery of a record saw the headers map the previous delivery left
   * behind, a valid record that always fails and starts without a counter would
   * be retried three times and dead-lettered as MAX_RETRIES on the fourth call.
   */
  lemma FourthFailureIsDeadLettered(key: string, message: Option<string>, h: map<string, string>, error: string)
    requires IsValidMessage(message) && RetryCountHeader !in h
    ensures var r1 := Handle(key, message, h, Failed(error));
            var r2 := Handle(key, message, r1.headers, Failed(error));
            var r3 := Handle(key, message, r2.headers, Failed(error));
            var r4 := Handle(key, message, r3.headers, Failed(error));
            r1.acks == r2.acks == r3.acks == 0
            && r1.dlq == r2.dlq == r3.dlq == []
            && r4.acks == 1 && r4.dlq == [DlqEntry(key, message, MaxRetries, error)]
            && ReadRetryCount(r4.headers) == 4
  {
  }

  /**
   * As written, a failing delivery whose headers carry no `retry_count` (every
   * delivery from the broker, since the bumped counter is written only to the
   * in-memory map) is left unacknowledged with the counter at 1 and is never
   * dead-lettered, however often it is delivered again.
   */
  lemma FreshFailureIsNeverDeadLettered(key: string, message: Option<string>, h: map<string, string>, error: string)
    requires IsValidMessage(message) && RetryCountHeader !in h
    ensures var r := Handle(key, message, h, Failed(error));
            r.acks == 0 && r.dlq == [] && ReadRetryCount(r.headers) == 1
  {
  }

  // --------------------------------------------------- listen, the class

  /** The listener bean; its one piece of state is the log of `sendToDLQ` calls. */
  class Listener {
    var dlqLog: seq<DlqEntry>

    constructor ()
      ensures dlqLog == []
    {
      dlqLog := [];
    }

    /** `getRetryCount`: read the counter and write it back one higher. */
    method GetRetryCount(headers: Headers) returns (count: JInt)
      modifies headers
      ensures count == ReadRetryCount(old(headers.entries))
      ensures headers.entries == BumpRetryCount(old(headers.entries))
    {
      count := 0;
      if RetryCountHeader in headers.entries {
        var parsed := ParseInt(headers.entries[RetryCountHeader]);
        if parsed.Some? {
          count := parsed.value;
        }
      }
      headers.Put(RetryCountHeader, ShowInt(WrapInt(count + 1)));
    }

    /** `sendToDLQ`: log the record and add the two error headers. */
    method SendToDlq(key: string, message: Option<string>, headers: Headers, reason: string, description: string)
      modifies this, headers
      ensures headers.entries == WithErrorHeaders(old(headers.entries), reason, description)
      ensures dlqLog == old(dlqLog) + [DlqEntry(key, message, reason, description)]
    {
      dlqLog := dlqLog + [DlqEntry(key, message, reason, description)];
      headers.Put(ErrorReasonHeader, reason);
      headers.Put(ErrorDescriptionHeader, description);
    }

    /** `listen` for one record. */
    method Listen(key: string, message: Option<string>, headers: Headers, ack: Acknowledgment, processing: Processing)
      modifies this, headers, ack
      ensures var r := Handle(key, message, old(headers.entries), processing);
              ack.count == old(ack.count) + r.acks
              && headers.entries == r.headers
              && dlqLog == old(dlqLog) + r.dlq
    {
      if !IsValidMessage(message) {
        // IllegalArgumentException, caught by its own handler
        SendToDlq(key, message, headers, ValidationError, InvalidMessageText(message));
        ack.Acknowledge();
      } else if processing.Processed? {
        ack.Acknowledge();
      } else {
        var count := GetRetryCount(headers);
        if count < RetryLimit {
          // left unacknowledged so that it is processed again
        } else {
          SendToDlq(key, message, headers, MaxRetries, processing.error);
          ack.Acknowledge();
        }
      }
    }
  }
}
