/**
 * The two `AdvancedErrorHandlingConfig` classes: the listener container factory
 * with manual-immediate acknowledgment, a fixed back-off of 1000 ms with 3
 * attempts, a concurrency of 3, and a dead-letter recoverer whose destination
 * is the source topic with "-dlq" appended, on the source partition. The
 * `additional` copy uses `DefaultErrorHandler`, the `additional-examples` copy
 * the older `SeekToCurrentErrorHandler`; everything else is the same.
 */
module DlqRouting {

  /** The parts of a failed `ConsumerRecord` the recoverer looks at. */
  datatype SourceRecord = SourceRecord(topic: string, partition: int, offset: int)

  /**
   * Kafka's `TopicPartition`. `DeadLetterPublishingRecoverer` publishes with no
   * fixed partition, leaving the choice to the producer, when the partition of
   * the destination it is given is negative.
   */
  datatype TopicPartition = TopicPartition(topic: string, partition: int)

  const DlqSuffix: string := "-dlq"

  /** The DLQ topic for a source topic. */
  function DlqTopic(topic: string): (t: string)
    ensures |t| == |topic| + |DlqSuffix|
    ensures t[..|topic|] == topic && t[|topic|..] == DlqSuffix
  {
    topic + DlqSuffix
  }

  /**
   * The destination lambda `(record, exception) -> new TopicPartition(record.topic() + "-dlq",
   * record.partition())`; the exception is a parameter it never reads.
   */
  function DlqDestination(record: SourceRecord, exception: string): (d: TopicPartition)
    ensures d.partition == record.partition
    ensures d.topic == DlqTopic(record.topic)
  {
    TopicPartition(DlqTopic(record.topic), record.partition)
  }

  /** The destination is a function of the record alone. */
  lemma DestinationIgnoresException(record: SourceRecord, e1: string, e2: string)
    ensures DlqDestination(record, e1) == DlqDestination(record, e2)
  {
  }

  /** Distinct source topics never share a DLQ topic, and the source name can be read back. */
  lemma DlqTopicInjective(a: string, b: string)
    ensures DlqTopic(a) == DlqTopic(b) ==> a == b
    ensures DlqTopic(a)[..|a|] == a
  {
  }

  // ------------------------------------------------------- configuration

  datatype AckMode = ManualImmediate
  datatype ErrorHandlerKind = DefaultErrorHandler | SeekToCurrentErrorHandler

  /** Spring's `FixedBackOff(interval, maxAttempts)`, as two numbers. */
  datatype FixedBackOff = FixedBackOff(intervalMs: nat, maxAttempts: nat)

  /** The settings one `kafkaListenerContainerFactory` bean carries. */
  datatype ListenerFactory = ListenerFactory(
    ackMode: AckMode,
    handler: ErrorHandlerKind,
    backOff: FixedBackOff,
    concurrency: nat)

  const RetryBackOff: FixedBackOff := FixedBackOff(1000, 3)
  const Concurrency: nat := 3

  /** The factory bean, for the error-handler class each copy of the configuration uses. */
  function ListenerFactoryFor(handler: ErrorHandlerKind): (f: ListenerFactory)
    ensures f.handler == handler
    ensures f.ackMode == ManualImmediate
    ensures f.backOff.intervalMs == 1000 && f.backOff.maxAttempts == 3
    ensures f.concurrency == 3
  {
    ListenerFactory(ManualImmediate, handler, RetryBackOff, Concurrency)
  }

  /** The factory the `additional` copy builds, from its own literals. */
  const AdditionalFactory: ListenerFactory :=
    ListenerFactory(ManualImmediate, DefaultErrorHandler, FixedBackOff(1000, 3), 3)

  /** The factory the `additional-examples` copy builds, from its own literals. */
  const AdditionalExamplesFactory: ListenerFactory :=
    ListenerFactory(ManualImmediate, SeekToCurrentErrorHandler, FixedBackOff(1000, 3), 3)

  /**
   * Each copy builds the factory `ListenerFactoryFor` gives for its handler
   * class, and the two differ in that class and in nothing else.
   */
  lemma CopiesAgree()
    ensures AdditionalFactory == ListenerFactoryFor(DefaultErrorHandler)
    ensures AdditionalExamplesFactory == ListenerFactoryFor(SeekToCurrentErrorHandler)
    ensures AdditionalExamplesFactory == AdditionalFactory.(handler := SeekToCurrentErrorHandler)
    ensures AdditionalExamplesFactory != AdditionalFactory
  {
  }

  // ----------------------------------------- destination partition range

  /** Topic names and partition counts the enhanced consumer provisions. */
  const EnhancedTopic: string := "enhanced-topic"
  const EnhancedTopicPartitions: nat := 3
  const EnhancedDlqTopic: string := "enhanced-topic-dlq"
  const EnhancedDlqPartitions: nat := 1

  /** The provisioned DLQ topic is the one the naming rule gives. */
  lemma EnhancedDlqTopicFollowsNaming()
    ensures DlqTopic(EnhancedTopic) == EnhancedDlqTopic
  {
  }

  /** A destination can be written: no fixed partition, or one the topic has. */
  predicate PartitionAvailable(d: TopicPartition, partitions: nat)
  {
    d.partition < partitions
  }

  /**
   * As written, a record from partition 2 of the three-partition source topic is
   * sent to partition 2 of a DLQ topic that has only partition 0.
   */
  lemma DestinationPartitionMissing(exception: string)
    ensures var r := SourceRecord(EnhancedTopic, 2, 0);
            r.partition < EnhancedTopicPartitions
            && DlqDestination(r, exception).topic == EnhancedDlqTopic
            && !PartitionAvailable(DlqDestination(r, exception), EnhancedDlqPartitions)
  {
  }

  /**
   * The destination with the partition count of the DLQ topic taken into
   * account: keep the source partition when the DLQ topic has it, otherwise
   * leave the partition to the producer (-1).
   */
  function BoundedDlqDestination(record: SourceRecord, exception: string, dlqPartitions: nat): (d: TopicPartition)
    ensures d.topic == DlqTopic(record.topic)
    ensures PartitionAvailable(d, dlqPartitions)
    ensures 0 <= record.partition < dlqPartitions ==> d == DlqDestination(record, exception)
    ensures d.partition >= 0 ==> d.partition == record.partition
  {
    var d := DlqDestination(record, exception);
    if d.partition < dlqPartitions then d else d.(partition := -1)
  }
}
