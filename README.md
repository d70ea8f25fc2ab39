# Kafka delivery guarantees — a verified model of the decision rules

This project models, in Dafny, the decision rules of the delivery-guarantee
examples of a Kafka course written with Spring Kafka:

- the `EnhancedConsumer` listener. It validates a record, reads and bumps a
  `retry_count` header, and decides among three outcomes: acknowledge; leave
  the record unacknowledged so that it is processed again; or dead-letter it
  (`sendToDLQ`, which adds `error_reason` and `error_description` headers) and
  acknowledge;
- the `EnhancedProducer` runner. It handles the `exit` check and the
  `key:value` parse with Java `String.split` semantics, sends each accepted
  line, and logs a metric when the send completes. After a failed send,
  `retryMessage` retries with doubling back-off (100, 200, 400 ms);
- the dead-letter destination rule and the fixed back-off constants of the two
  `AdvancedErrorHandlingConfig` classes;
- the at-least-once, exactly-once and at-most-once listener steps.

Modules, one per source file plus shared pieces:

- `JavaText` (`java_text.dfy`): the Java behaviour the code relies on. This
  covers `int` wrap-around, `Integer.parseInt` and `Integer.toString`,
  `String.contains`, `String.split(":")` and `equalsIgnoreCase("exit")`.
- `Messaging` (`messaging.dfy`): the injected processing outcome and the
  `Acknowledgment` and headers objects that a listener call changes in place.
  It also states the commit behaviour that the listeners' own comments promise
  for each guarantee (`OffsetCommitted`).
- `EnhancedConsumer`, `EnhancedProducer`, `DlqRouting`, `AtLeastOnceConsumer`,
  `ExactlyOnceConsumer`, `AtMostOnceConsumer`: one module per modelled source file.
- `Wrappers`: `Option`, standing for a Java reference that may be null.

Things the code gets from outside are parameters of the model:

- `processMessage` (which fails at random) becomes a `Processing` value.
- The outcome of each send attempt in `retryMessage` becomes a function
  `sendOk: nat -> bool`.
- The lines typed on standard input become a sequence of strings.
- Sleeps are recorded as a list of delays in milliseconds.

Header values are held as the text their `toString()` gives.

## Model

| member | source | states |
|---|---|---|
| `EnhancedConsumer.IsValidMessageMeaning` | spring-java/delivery-garantees/src/main/java/com/helloworld/kafka/springexamples/additional/EnhancedConsumer.java:119-122 | a message is valid iff it is non-null, non-empty and "error" occurs at no index of it |
| `JavaText.Contains` | spring-java/delivery-garantees/src/main/java/com/helloworld/kafka/springexamples/additional/EnhancedConsumer.java:121 | the left-to-right scan answers true iff the pattern occurs at some index |
| `EnhancedConsumer.ReadRetryCount` | spring-java/delivery-garantees/src/main/java/com/helloworld/kafka/springexamples/additional/EnhancedConsumer.java:139-148 | the counter is the parsed `retry_count` header; it is 0 when the header is absent or does not parse |
| `EnhancedConsumer.BumpRetryCount` | spring-java/delivery-garantees/src/main/java/com/helloworld/kafka/springexamples/additional/EnhancedConsumer.java:150-153 | only `retry_count` is written; reading the new map gives the old count plus one (Java `int` wrap-around) |
| `JavaText.ShowIntRoundTrip` | spring-java/delivery-garantees/src/main/java/com/helloworld/kafka/springexamples/additional/EnhancedConsumer.java:144-151 | `Integer.parseInt` reads back every `int` that `Integer.toString` writes |
| `JavaText.WrapInt` | spring-java/delivery-garantees/src/main/java/com/helloworld/kafka/springexamples/additional/EnhancedConsumer.java:151 | `count + 1` is the `int` congruent to the exact sum modulo 2^32; it is unchanged when it fits |
| `EnhancedConsumer.WithErrorHeaders` | spring-java/delivery-garantees/src/main/java/com/helloworld/kafka/springexamples/additional/EnhancedConsumer.java:163-165 | exactly `error_reason` and `error_description` are set; every other entry keeps its value |
| `EnhancedConsumer.Handle` | spring-java/delivery-garantees/src/main/java/com/helloworld/kafka/springexamples/additional/EnhancedConsumer.java:53-103 | at most one acknowledge and one DLQ entry per call; ack iff invalid, processed, or count >= 3; DLQ iff invalid, or failed with count >= 3; a DLQ'd record is acknowledged and keeps its key and message; an unacknowledged one has its counter raised by one |
| `EnhancedConsumer.InvalidIsDeadLettered` | spring-java/delivery-garantees/src/main/java/com/helloworld/kafka/springexamples/additional/EnhancedConsumer.java:66-81 | an invalid record is DLQ'd as VALIDATION_ERROR with the exception text and acknowledged; the headers gain exactly the two error entries, so `retry_count` is neither read nor written |
| `EnhancedConsumer.ProcessedIsAcknowledged` | spring-java/delivery-garantees/src/main/java/com/helloworld/kafka/springexamples/additional/EnhancedConsumer.java:71-75 | a valid, processed record is acknowledged once; nothing is DLQ'd and the headers are untouched |
| `EnhancedConsumer.EarlyFailureIsRetried` | spring-java/delivery-garantees/src/main/java/com/helloworld/kafka/springexamples/additional/EnhancedConsumer.java:88-95 | a failure with count < 3 is neither acknowledged nor DLQ'd; only the counter is bumped |
| `EnhancedConsumer.ExhaustedFailureIsDeadLettered` | spring-java/delivery-garantees/src/main/java/com/helloworld/kafka/springexamples/additional/EnhancedConsumer.java:96-101 | a failure with count >= 3 is DLQ'd as MAX_RETRIES with the processing error and acknowledged |
| `EnhancedConsumer.FourthFailureIsDeadLettered` | spring-java/delivery-garantees/src/main/java/com/helloworld/kafka/springexamples/additional/EnhancedConsumer.java:87-101 | suppose each call sees the map that the previous call left and the record always fails. Then the first three calls retry and the fourth DLQs it as MAX_RETRIES |
| `EnhancedConsumer.FreshFailureIsNeverDeadLettered` | spring-java/delivery-garantees/src/main/java/com/helloworld/kafka/springexamples/additional/EnhancedConsumer.java:87-95 | a failing delivery without a `retry_count` header is left unacknowledged with the counter at 1 and is not DLQ'd |
| `EnhancedConsumer.Listener.GetRetryCount` | spring-java/delivery-garantees/src/main/java/com/helloworld/kafka/springexamples/additional/EnhancedConsumer.java:137-154 | returns `ReadRetryCount` of the old map and leaves `BumpRetryCount` of it |
| `EnhancedConsumer.Listener.SendToDlq` | spring-java/delivery-garantees/src/main/java/com/helloworld/kafka/springexamples/additional/EnhancedConsumer.java:156-168 | appends one log entry with key, message, reason and description; headers become `WithErrorHeaders` of the old map |
| `EnhancedConsumer.Listener.Listen` | spring-java/delivery-garantees/src/main/java/com/helloworld/kafka/springexamples/additional/EnhancedConsumer.java:52-103 | the acknowledge count, the headers and the DLQ log change exactly as `Handle` says |
| `EnhancedProducer.ExitEndsInput` | spring-java/delivery-garantees/src/main/java/com/helloworld/kafka/springexamples/additional-examples/EnhancedProducer.java:53-55 | "exit" in any case ends the input and never holds a ':' |
| `EnhancedProducer.LineRoundTrip` | spring-java/delivery-garantees/src/main/java/com/helloworld/kafka/springexamples/additional-examples/EnhancedProducer.java:57-65 | a key and a non-empty value without ':', joined by ':' and followed by any trailing ':', parse back to that key and value |
| `EnhancedProducer.AcceptedLineShape` | spring-java/delivery-garantees/src/main/java/com/helloworld/kafka/springexamples/additional-examples/EnhancedProducer.java:57-61 | conversely, every accepted line has exactly that shape: the value is non-empty, the key may be empty |
| `JavaText.JoinFields` | spring-java/delivery-garantees/src/main/java/com/helloworld/kafka/springexamples/additional-examples/EnhancedProducer.java:57 | joining the fields of a string with the separator gives the string back |
| `EnhancedProducer.SentRecordsAreWellFormed` | spring-java/delivery-garantees/src/main/java/com/helloworld/kafka/springexamples/additional-examples/EnhancedProducer.java:57-65 | every record sent goes to "enhanced-topic" with a ':'-free key and a non-empty ':'-free value |
| `EnhancedProducer.NothingSentAfterExit` | spring-java/delivery-garantees/src/main/java/com/helloworld/kafka/springexamples/additional-examples/EnhancedProducer.java:50-55 | lines after an "exit" line add no sends |
| `EnhancedProducer.Run` | spring-java/delivery-garantees/src/main/java/com/helloworld/kafka/springexamples/additional-examples/EnhancedProducer.java:50-86 | the loop sends exactly `SendsFor(lines)` and rejects exactly `RejectsFor(lines)`, the malformed lines before the first "exit" |
| `EnhancedProducer.EveryLineSentOrRejected` | spring-java/delivery-garantees/src/main/java/com/helloworld/kafka/springexamples/additional-examples/EnhancedProducer.java:50-65 | sends plus rejects never exceed the lines read, and equal them when no line is "exit" |
| `EnhancedProducer.LinesBeforeExitSentOrRejected` | spring-java/delivery-garantees/src/main/java/com/helloworld/kafka/springexamples/additional-examples/EnhancedProducer.java:50-61 | with an "exit" line, each line before the first one is sent or rejected exactly once: sends plus rejects equal the number of lines before it |
| `EnhancedProducer.PartitionTextMeaning` | spring-java/delivery-garantees/src/main/java/com/helloworld/kafka/springexamples/additional-examples/EnhancedProducer.java:91-95 | a non-negative partition is shown as a number that parses back to it; a negative one as "N/A" |
| `EnhancedProducer.OnSendComplete` | spring-java/delivery-garantees/src/main/java/com/helloworld/kafka/springexamples/additional-examples/EnhancedProducer.java:67-84 | a retry starts iff the send failed; a failure logs ("failure", "N/A") and retries the same key and value with maxRetries 3; a success logs "success", and a non-negative partition is shown as text that parses back to it |
| `EnhancedProducer.FailedSendIsRetried` | spring-java/delivery-garantees/src/main/java/com/helloworld/kafka/springexamples/additional-examples/EnhancedProducer.java:76-83 | the retry after a failed send is of the same key and value, makes 1 to 3 attempts, and sleeps a prefix of 100, 200, 400 ms |
| `EnhancedProducer.Backoff` | spring-java/delivery-garantees/src/main/java/com/helloworld/kafka/springexamples/additional-examples/EnhancedProducer.java:106 | each delay is at least 100 ms and twice the one before it |
| `EnhancedProducer.DefaultDelays` | spring-java/delivery-garantees/src/main/java/com/helloworld/kafka/springexamples/additional-examples/EnhancedProducer.java:83-107 | with maxRetries 3 the delays are 100, 200, 400 ms |
| `EnhancedProducer.AttemptsFromMeaning` | spring-java/delivery-garantees/src/main/java/com/helloworld/kafka/springexamples/additional-examples/EnhancedProducer.java:103-117 | attempts stop at the first success and never exceed maxRetries; all attempts before the last failed |
| `EnhancedProducer.AllFailuresUseBudget` | spring-java/delivery-garantees/src/main/java/com/helloworld/kafka/springexamples/additional-examples/EnhancedProducer.java:103-126 | when every send fails, exactly maxRetries attempts are made |
| `EnhancedProducer.RetryMessage` | spring-java/delivery-garantees/src/main/java/com/helloworld/kafka/springexamples/additional-examples/EnhancedProducer.java:97-130 | the loop makes `Attempts` sends, all of the same record to "enhanced-topic", each after delay 100·2^k. It reports sent iff the last attempt succeeded, and logs exhaustion iff all maxRetries > 0 attempts failed |
| `DlqRouting.DlqDestination` | spring-java/delivery-garantees/src/main/java/com/helloworld/kafka/springexamples/additional/AdvancedErrorHandlingConfig.java:35-39 | the destination has the source partition and the topic whose prefix is the source topic and whose rest is "-dlq" |
| `DlqRouting.DlqTopicInjective` | spring-java/delivery-garantees/src/main/java/com/helloworld/kafka/springexamples/additional/AdvancedErrorHandlingConfig.java:37 | distinct source topics get distinct DLQ topics; the source topic is a prefix of its DLQ topic |
| `DlqRouting.DestinationIgnoresException` | spring-java/delivery-garantees/src/main/java/com/helloworld/kafka/springexamples/additional-examples/AdvancedErrorHandlingConfig.java:38-42 | the destination does not depend on the exception |
| `DlqRouting.ListenerFactoryFor` | spring-java/delivery-garantees/src/main/java/com/helloworld/kafka/springexamples/additional/AdvancedErrorHandlingConfig.java:25-48 | manual-immediate acknowledgment, fixed back-off of 1000 ms with 3 attempts, concurrency 3 |
| `DlqRouting.CopiesAgree` | spring-java/delivery-garantees/src/main/java/com/helloworld/kafka/springexamples/additional-examples/AdvancedErrorHandlingConfig.java:28-52 | the factory each copy builds from its own literals is `ListenerFactoryFor` its handler class; the two differ in that class and nothing else |
| `DlqRouting.EnhancedDlqTopicFollowsNaming` | spring-java/delivery-garantees/src/main/java/com/helloworld/kafka/springexamples/additional/EnhancedConsumer.java:34-44 | the provisioned "enhanced-topic-dlq" is the DLQ name of "enhanced-topic" |
| `DlqRouting.DestinationPartitionMissing` | spring-java/delivery-garantees/src/main/java/com/helloworld/kafka/springexamples/additional/AdvancedErrorHandlingConfig.java:38 | a record from partition 2 of "enhanced-topic" is routed to partition 2 of the one-partition "enhanced-topic-dlq" |
| `DlqRouting.BoundedDlqDestination` | spring-java/delivery-garantees/src/main/java/com/helloworld/kafka/springexamples/additional/AdvancedErrorHandlingConfig.java:35-39 | the corrected destination: same DLQ topic, always a partition the DLQ topic has, or none (-1); it equals the original whenever the source partition exists there |
| `AtLeastOnceConsumer.ListenEffect` | spring-java/delivery-garantees/src/main/java/com/helloworld/kafka/springexamples/at-least-once/AtLeastOnceConsumer.java:41-58 | at most one acknowledge, given iff processing returned; the call always returns normally |
| `AtLeastOnceConsumer.Listen` | spring-java/delivery-garantees/src/main/java/com/helloworld/kafka/springexamples/at-least-once/AtLeastOnceConsumer.java:46-57 | the acknowledgment count rises as `ListenEffect` says; the call returns |
| `AtLeastOnceConsumer.FailedRecordIsRedelivered` | spring-java/delivery-garantees/src/main/java/com/helloworld/kafka/springexamples/at-least-once/AtLeastOnceConsumer.java:48-57 | committed iff processed; a failed record is delivered again |
| `ExactlyOnceConsumer.ListenEffect` | spring-java/delivery-garantees/src/main/java/com/helloworld/kafka/springexamples/exactly-once/ExactlyOnceConsumer.java:43-60 | either acknowledged and returned, or not acknowledged and threw; ack iff processed; a failure rethrows the same error |
| `ExactlyOnceConsumer.Listen` | spring-java/delivery-garantees/src/main/java/com/helloworld/kafka/springexamples/exactly-once/ExactlyOnceConsumer.java:48-60 | the acknowledgment count and the exit are those of `ListenEffect` |
| `ExactlyOnceConsumer.CommitIffProcessed` | spring-java/delivery-garantees/src/main/java/com/helloworld/kafka/springexamples/exactly-once/ExactlyOnceConsumer.java:51-59 | committed iff processed; a thrown call leaves no acknowledgment and the record is delivered again |
| `AtMostOnceConsumer.Listen` | spring-java/delivery-garantees/src/main/java/com/helloworld/kafka/springexamples/at-most-once/AtMostOnceConsumer.java:39-55 | never acknowledges and always returns; it reports the record lost iff processing failed |
| `AtMostOnceConsumer.SameCommitState` | spring-java/delivery-garantees/src/main/java/com/helloworld/kafka/springexamples/at-most-once/AtMostOnceConsumer.java:43-55 | success and failure give the same commit state, acknowledgments and exit |
| `AtMostOnceConsumer.FailedRecordIsLost` | spring-java/delivery-garantees/src/main/java/com/helloworld/kafka/springexamples/at-most-once/AtMostOnceConsumer.java:51-55 | a failed record is reported lost and never delivered again |

## Left out

- Logging, console prompts, `Scanner`, the latency clock, `KafkaTemplate.send` and its futures, and `executeInTransaction` are I/O or library calls. Send outcomes and processing outcomes are parameters instead.
- The `partition` and `offset` arguments of `EnhancedConsumer.listen` reach only the log. The payload of the three guarantee listeners reaches only the log and `processMessage`. None of them is modelled.
- `listenDLQ` only logs. The `main` methods, the topic beans and the consumer configuration maps are configuration only. None of them is modelled.
- The container is not modelled: `Acknowledgment`, `@Transactional` rollback, auto-commit, `DeadLetterPublishingRecoverer`, `FixedBackOff`, `DefaultErrorHandler` and `SeekToCurrentErrorHandler` are library code.
- `Messaging.OffsetCommitted` states only what the listeners' comments say about commit and redelivery.
- The code has no back-off cap, no transaction coordinator and no real DLQ publish: `sendToDLQ` only changes headers and logs. None of these is modelled.
- EnhancedConsumer.FourthFailureIsDeadLettered assumes that each delivery sees the map the previous call left behind. The code writes the counter only to the in-memory map, and nothing in the code sends it back to the broker; "## Findings" records what that means for a record that keeps failing.
- Header values are held as their `toString()` text. The model takes the `@Headers` map as mutable, as the code does. Whether the framework's map accepts `put` is library behaviour. If it refuses, the exception from `getRetryCount` (EnhancedConsumer.java:151) or `sendToDLQ` (EnhancedConsumer.java:164) leaves `listen` from inside its catch blocks and reaches the container's error handler; the model, and the second "## Findings" row, assume the map accepts `put`.
- `retryMessage` runs on a new thread; the model runs it sequentially.
- A `Thread.sleep` that is interrupted skips the increment and repeats the same delay. The model assumes every sleep completes, which keeps the loop bounded.
- EnhancedProducer.Backoff: Java computes `(long) Math.pow(2, k) * 100` in `long`. The model uses exact integers, which agree for k < 57. The only call passes maxRetries = 3.
- EnhancedProducer.Run: at end of input `Scanner.nextLine` throws. The model's loop simply stops there.
- JavaText.ParseInt: only ASCII digits are modelled. Java's `Integer.parseInt` also accepts other Unicode decimal digits.

## Findings

| source | as written | input that shows it | evidently intended | confidence | as-written member | corrected member |
|---|---|---|---|---|---|---|
| spring-java/delivery-garantees/src/main/java/com/helloworld/kafka/springexamples/additional/AdvancedErrorHandlingConfig.java:38 | the DLQ partition is always the source record's partition | a record from partition 2 of "enhanced-topic" (3 partitions, EnhancedConsumer.java:35) that reaches the recoverer is routed to partition 2 of "enhanced-topic-dlq", provisioned with 1 partition (EnhancedConsumer.java:45) | a partition the DLQ topic has, or none so that the producer chooses one | medium; not executed | `DlqRouting.DestinationPartitionMissing` | `DlqRouting.BoundedDlqDestination` |
| spring-java/delivery-garantees/src/main/java/com/helloworld/kafka/springexamples/additional/EnhancedConsumer.java:150-151 | the bumped `retry_count` is written only to the map of the current delivery | a valid record that always fails and arrives without `retry_count`, as every record `EnhancedProducer` sends does (EnhancedProducer.java:65): each delivery reads 0, writes 1 and leaves it unacknowledged, so it is never DLQ'd as MAX_RETRIES | the counter travels with the record, so the fourth failing delivery DLQs it | medium; not executed | `EnhancedConsumer.FreshFailureIsNeverDeadLettered` | `EnhancedConsumer.FourthFailureIsDeadLettered` |
