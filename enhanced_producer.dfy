/**
 * `EnhancedProducer`: the runner reads `key:value` lines until "exit", sends
 * each well-formed line to "enhanced-topic", reports the outcome of each send
 * as a metric, and hands a failed send to `retryMessage`, which retries up to
 * `maxRetries` times with delays of 100, 200, 400, ... ms and stops at the
 * first success.
 */
module EnhancedProducer {
  import opened Wrappers
  import opened JavaText

  const Topic: string := "enhanced-topic"
  /** The `maxRetries` the runner passes to `retryMessage`. */
  const RetriesAfterFailure: int := 3

  /** A `template.send(topic, key, value)` call. */
  datatype ProducerRecord = ProducerRecord(topic: string, key: string, value: string)

  // ----------------------------------------------------------- one line

  /** What the runner does with one input line. */
  datatype Command = Exit | Malformed | Send(key: string, value: string)

  /** The exit check, then `input.split(":")` and its length check. */
  function ParseLine(input: string): Command
  {
    if IsExit(input) then Exit
    else
      var data := Split(input, ':');
      if |data| != 2 then Malformed else Send(data[0], data[1])
  }

  /** "exit" in any case ends the loop. */
  lemma ExitEndsInput(input: string)
    requires IsExit(input)
    ensures ParseLine(input) == Exit
    ensures ':' !in input
  {
  }

  /** `key + ":" + value`, followed by any number of further separators. */
  function Line(key: string, value: string, trailing: nat): string
  {
    key + [':'] + value + Repeat(':', trailing)
  }

  /** n empty fields. */
  function Empties(n: nat): (e: seq<string>)
    ensures |e| == n && forall i | 0 <= i < n :: e[i] == ""
  {
    seq(n, _ => "")
  }

  lemma {:induction false} FieldsOfSeparators(n: nat)
    ensures Fields(Repeat(':', n), ':') == Empties(n + 1)
  {
    if n > 0 {
      FieldsOfSeparators(n - 1);
      assert Repeat(':', n) == [':'] + Repeat(':', n - 1);
      assert Repeat(':', n)[1..] == Repeat(':', n - 1);
      assert [""] + Empties(n) == Empties(n + 1);
    }
  }

  lemma {:induction false} DropEmptyTail(fs: seq<string>, n: nat)
    requires fs != [] && fs[|fs| - 1] != []
    ensures DropTrailingEmpty(fs + Empties(n)) == fs
  {
    if n > 0 {
      var e := Empties(n);
      assert (fs + e)[..|fs + e| - 1] == fs + Empties(n - 1);
      DropEmptyTail(fs, n - 1);
    } else {
      assert fs + Empties(n) == fs;
    }
  }

  lemma FieldsOfLine(key: string, value: string, trailing: nat)
    requires ':' !in key && ':' !in value
    ensures Fields(Line(key, value, trailing), ':') == [key, value] + Empties(trailing)
  {
    var c := Repeat(':', trailing);
    var tail := [':'] + (value + c);
    assert Line(key, value, trailing) == key + tail;
    FieldsPrefix(key, tail, ':');
    FieldsPrefix(value, c, ':');
    FieldsOfSeparators(trailing);
    assert Fields(c, ':')[0] == "" && Fields(c, ':')[1..] == Empties(trailing);
    assert Fields(value + c, ':') == [value + ""] + Empties(trailing);
    assert value + "" == value;
    assert tail[1..] == value + c;
    var f1 := Fields(tail, ':');
    assert f1 == [""] + Fields(value + c, ':');
    assert key + f1[0] == key;
    assert f1[1..] == Fields(value + c, ':');
    assert f1[1..] == [value] + Empties(trailing);
    assert Fields(key + tail, ':') == [key] + ([value] + Empties(trailing));
    assert [key] + ([value] + Empties(trailing)) == [key, value] + Empties(trailing);
  }

  /** A key and a non-empty value, both without ':', are read back from their line. */
  lemma LineRoundTrip(key: string, value: string, trailing: nat)
    requires ':' !in key && ':' !in value && value != []
    ensures ParseLine(Line(key, value, trailing)) == Send(key, value)
  {
    var s := Line(key, value, trailing);
    assert s[|key|] == ':';
    assert !IsExit(s);
    FieldsOfLine(key, value, trailing);
    DropEmptyTail([key, value], trailing);
  }

  lemma {:induction false} JoinWithEmptyTail(fs: seq<string>, n: nat)
    requires |fs| >= 1
    ensures Join(fs + Empties(n), ':') == Join(fs, ':') + Repeat(':', n)
    decreases n, |fs|
  {
    if |fs| == 1 {
      if n > 0 {
        var e := Empties(n);
        assert fs + e == [fs[0]] + e;
        assert e == [""] + Empties(n - 1);
        JoinWithEmptyTail([""], n - 1);
        assert Join([""], ':') == [];
        assert Repeat(':', n) == [':'] + Repeat(':', n - 1);
        assert (fs + e)[1..] == e;
      } else {
        assert fs + Empties(n) == fs;
      }
    } else {
      JoinWithEmptyTail(fs[1..], n);
      assert (fs + Empties(n))[1..] == fs[1..] + Empties(n);
    }
  }

  /**
   * Every accepted line is a key and a non-empty value, both without ':',
   * joined by ':' and followed by nothing but further ':' characters.
   */
  lemma AcceptedLineShape(input: string) returns (trailing: nat)
    requires ParseLine(input).Send?
    ensures var c := ParseLine(input);
            ':' !in c.key && ':' !in c.value && c.value != []
            && input == Line(c.key, c.value, trailing)
  {
    var fs := Fields(input, ':');
    var r := DropTrailingEmpty(fs);
    assert ':' in input;
    assert r == fs[..2];
    trailing := |fs| - 2;
    assert fs == r + Empties(trailing);
    JoinFields(input, ':');
    JoinWithEmptyTail(r, trailing);
    assert Join(r, ':') == r[0] + [':'] + r[1];
  }

  // --------------------------------------------------------- the runner

  /** The records the runner sends for the given input lines (sends not yet completed). */
  function SendsFor(lines: seq<string>): seq<ProducerRecord>
  {
    if lines == [] then []
    else match ParseLine(lines[0])
      case Exit => []
      case Malformed => SendsFor(lines[1..])
      case Send(k, v) => [ProducerRecord(Topic, k, v)] + SendsFor(lines[1..])
  }

  /** The lines the runner answers with "Formato incorrecto": the malformed ones before the first "exit". */
  function RejectsFor(lines: seq<string>): nat
  {
    if lines == [] then 0
    else match ParseLine(lines[0])
      case Exit => 0
      case Malformed => 1 + RejectsFor(lines[1..])
      case Send(_, _) => RejectsFor(lines[1..])
  }

  /**
   * Each line read before "exit" is either sent once or rejected once, so the
   * two together never exceed the lines read; without an "exit" line they
   * account for every line.
   */
  lemma {:induction false} EveryLineSentOrRejected(lines: seq<string>)
    ensures |SendsFor(lines)| + RejectsFor(lines) <= |lines|
    ensures (forall i | 0 <= i < |lines| :: !IsExit(lines[i]))
            ==> |SendsFor(lines)| + RejectsFor(lines) == |lines|
  {
    if lines != [] {
      assert forall i | 0 <= i < |lines[1..]| :: lines[1..][i] == lines[i + 1];
      EveryLineSentOrRejected(lines[1..]);
    }
  }

  /**
   * With an "exit" line, every line before the first one is sent or rejected
   * exactly once, and nothing from the exit line on is counted.
   */
  lemma {:induction false} LinesBeforeExitSentOrRejected(before: seq<string>, exit: string, after: seq<string>)
    requires IsExit(exit)
    requires forall i | 0 <= i < |before| :: !IsExit(before[i])
    ensures |SendsFor(before + [exit] + after)| + RejectsFor(before + [exit] + after) == |before|
  {
    if before == [] {
      assert (before + [exit] + after)[0] == exit;
    } else {
      assert (before + [exit] + after)[1..] == before[1..] + [exit] + after;
      assert forall i | 0 <= i < |before[1..]| :: before[1..][i] == before[i + 1];
      LinesBeforeExitSentOrRejected(before[1..], exit, after);
    }
  }

  /** Nothing typed after "exit" is sent. */
  lemma {:induction false} NothingSentAfterExit(before: seq<string>, exit: string, after: seq<string>)
    requires IsExit(exit)
    ensures SendsFor(before + [exit] + after) == SendsFor(before)
  {
    if before == [] {
      assert (before + [exit] + after)[0] == exit;
    } else {
      assert (before + [exit] + after)[1..] == before[1..] + [exit] + after;
      NothingSentAfterExit(before[1..], exit, after);
    }
  }

  /** Every record sent goes to "enhanced-topic" with a key and a non-empty value free of ':'. */
  lemma {:induction false} SentRecordsAreWellFormed(lines: seq<string>)
    ensures forall r | r in SendsFor(lines) ::
              r.topic == Topic && ':' !in r.key && ':' !in r.value && r.value != []
  {
    if lines != [] {
      SentRecordsAreWellFormed(lines[1..]);
      if ParseLine(lines[0]).Send? {
        var _ := AcceptedLineShape(lines[0]);
      }
    }
  }

  /**
   * The loop of the runner over the lines read from standard input: stop at
   * "exit", skip malformed lines, send the others. Running out of lines ends
   * the loop too.
   */
  method Run(lines: seq<string>) returns (sent: seq<ProducerRecord>, rejected: nat)
    ensures sent == SendsFor(lines)
    ensures rejected == RejectsFor(lines)
  {
    sent, rejected := [], 0;
    var i := 0;
    while i < |lines|
      invariant 0 <= i <= |lines|
      invariant sent + SendsFor(lines[i..]) == SendsFor(lines)
      invariant rejected + RejectsFor(lines[i..]) == RejectsFor(lines)
    {
      var command := ParseLine(lines[i]);
      StepAt(lines, i);
      if command.Exit? {
        return;
      } else if command.Malformed? {
        rejected := rejected + 1;
      } else {
        sent := sent + [ProducerRecord(Topic, command.key, command.value)];
      }
      i := i + 1;
    }
    assert lines[i..] == [];
  }

  /** `SendsFor` and `RejectsFor` of the lines from i on, one line at a time. */
  lemma StepAt(lines: seq<string>, i: nat)
    requires i < |lines|
    ensures var c := ParseLine(lines[i]);
            && (c.Exit? ==> SendsFor(lines[i..]) == [] && RejectsFor(lines[i..]) == 0)
            && (c.Malformed? ==> SendsFor(lines[i..]) == SendsFor(lines[i + 1..])
                                 && RejectsFor(lines[i..]) == 1 + RejectsFor(lines[i + 1..]))
            && (c.Send? ==> SendsFor(lines[i..]) == [ProducerRecord(Topic, c.key, c.value)] + SendsFor(lines[i + 1..])
                            && RejectsFor(lines[i..]) == RejectsFor(lines[i + 1..]))
  {
    assert lines[i..][1..] == lines[i + 1..];
  }

  // ---------------------------------------------------- send completion

  /** How the future of a send completes: with record metadata, or with an exception. */
  datatype SendResult = Acked(partition: JInt, offset: int) | SendFailed(error: string)

  /** The status and the partition text `logMetrics` writes. */
  datatype Metric = Metric(status: string, partition: string)

  /** The partition as `logMetrics` shows it: the number, or "N/A" when negative. */
  function PartitionText(partition: JInt): string
  {
    if partition >= 0 then ShowInt(partition) else "N/A"
  }

  lemma PartitionTextMeaning(partition: JInt)
    ensures partition >= 0 ==> ParseInt(PartitionText(partition)) == Some(partition)
    ensures partition < 0 ==> PartitionText(partition) == "N/A"
  {
    if partition >= 0 {
      ShowIntRoundTrip(partition);
    }
  }

  /** A `retryMessage(template, key, value, maxRetries)` call. */
  datatype Retry = Retry(key: string, value: string, maxRetries: int)

  /** What the completion callback does: the metric it logs and, after a failure, the retry it starts. */
  datatype Completion = Completion(metric: Metric, retry: Option<Retry>)

  /** The completion callback of the send of `key:value`. */
  function OnSendComplete(key: string, value: string, result: SendResult): (c: Completion)
    ensures c.retry.Some? <==> result.SendFailed?
    ensures result.SendFailed? ==>
              c == Completion(Metric("failure", "N/A"), Some(Retry(key, value, RetriesAfterFailure)))
    ensures result.Acked? ==> c.metric.status == "success"
    ensures result.Acked? && result.partition >= 0 ==> ParseInt(c.metric.partition) == Some(result.partition)
  {
    match result
    case Acked(partition, _) =>
      PartitionTextMeaning(partition);
      Completion(Metric("success", PartitionText(partition)), None)
    case SendFailed(_) =>
      Completion(Metric("failure", PartitionText(-1)), Some(Retry(key, value, RetriesAfterFailure)))
  }

  // ------------------------------------------------------ retryMessage

  function Pow2(k: nat): (r: nat)
    ensures r >= 1
  {
    if k == 0 then 1 else 2 * Pow2(k - 1)
  }

  /** The sleep before the retry that follows k completed retries: `2^k * 100` ms. */
  function Backoff(k: nat): (ms: nat)
    ensures ms >= 100
    ensures k > 0 ==> ms == 2 * Backoff(k - 1)
  {
    Pow2(k) * 100
  }

  /** The delays of n retries in a row. */
  function Delays(n: nat): (d: seq<nat>)
    ensures |d| == n && forall k | 0 <= k < n :: d[k] == Backoff(k)
  {
    seq(n, k requires 0 <= k => Backoff(k))
  }

  lemma DefaultDelays()
    ensures Delays(RetriesAfterFailure) == [100, 200, 400]
  {
  }

  /**
   * The number of send attempts `retryMessage` makes from attempt k on, when
   * attempt j succeeds exactly if sendOk(j): it stops after the first success
   * or once maxRetries attempts were made.
   */
  function AttemptsFrom(k: nat, maxRetries: int, sendOk: nat -> bool): nat
    decreases maxRetries - k
  {
    if k >= maxRetries then k
    else if sendOk(k) then k + 1
    else AttemptsFrom(k + 1, maxRetries, sendOk)
  }

  function Attempts(maxRetries: int, sendOk: nat -> bool): nat
  {
    AttemptsFrom(0, maxRetries, sendOk)
  }

  /** The attempts stop at the first success, and never exceed the budget. */
  lemma {:induction false} AttemptsFromMeaning(k: nat, maxRetries: int, sendOk: nat -> bool)
    requires forall j: nat | j < k :: !sendOk(j)
    ensures var n := AttemptsFrom(k, maxRetries, sendOk);
            (n <= maxRetries || n == k)
            && n >= k
            && (forall j: nat | j < n - 1 :: !sendOk(j))
            && (n > k ==> (sendOk(n - 1) || n == maxRetries))
            && (n < maxRetries ==> n > 0 && sendOk(n - 1))
    decreases maxRetries - k
  {
    if k < maxRetries && !sendOk(k) {
      AttemptsFromMeaning(k + 1, maxRetries, sendOk);
    }
  }

  /** With every attempt failing, all maxRetries attempts are made. */
  lemma AllFailuresUseBudget(maxRetries: nat, sendOk: nat -> bool)
    requires forall j :: !sendOk(j)
    ensures Attempts(maxRetries, sendOk) == maxRetries
  {
    AttemptsFromMeaning(0, maxRetries, sendOk);
  }

  /**
   * A failed send hands the same key and value to `retryMessage` with a budget
   * of 3: between one and three further attempts, after delays that run
   * through 100, 200, 400 ms.
   */
  lemma FailedSendIsRetried(key: string, value: string, error: string, sendOk: nat -> bool)
    ensures var c := OnSendComplete(key, value, SendFailed(error));
            var n := Attempts(c.retry.value.maxRetries, sendOk);
            c.retry.value.key == key && c.retry.value.value == value
            && 1 <= n <= 3 && Delays(n) == [100, 200, 400][..n]
  {
    AttemptsFromMeaning(0, RetriesAfterFailure, sendOk);
    DefaultDelays();
  }

  /**
   * `retryMessage(template, key, value, maxRetries)`, run sequentially: the
   * delays slept, the records sent, whether one went through, and whether the
   * exhaustion message was logged. Attempt k succeeds exactly if sendOk(k).
   */
  method RetryMessage(key: string, value: string, maxRetries: int, sendOk: nat -> bool)
    returns (delays: seq<nat>, sends: seq<ProducerRecord>, sent: bool, exhausted: bool)
    ensures |delays| == |sends| == Attempts(maxRetries, sendOk)
    ensures delays == Delays(|delays|)
    ensures maxRetries <= 0 ==> delays == []
    ensures maxRetries > 0 ==> |delays| <= maxRetries
    ensures forall r | r in sends :: r == ProducerRecord(Topic, key, value)
    ensures forall j | 0 <= j < |sends| - 1 :: !sendOk(j)
    ensures sent <==> sends != [] && sendOk(|sends| - 1)
    ensures !sent && maxRetries > 0 ==> |sends| == maxRetries
    ensures exhausted <==> !sent && maxRetries > 0
  {
    var retries := 0;
    sent, exhausted := false, false;
    delays, sends := [], [];
    while !sent && retries < maxRetries
      invariant 0 <= retries == |delays| == |sends|
      invariant retries > 0 ==> retries <= maxRetries
      invariant delays == Delays(retries)
      invariant forall r | r in sends :: r == ProducerRecord(Topic, key, value)
      invariant forall j | 0 <= j < retries - 1 :: !sendOk(j)
      invariant retries > 0 && !sent ==> !sendOk(retries - 1)
      invariant sent <==> retries > 0 && sendOk(retries - 1)
      invariant exhausted <==> !sent && retries > 0 && retries >= maxRetries
      invariant AttemptsFrom(if sent then retries - 1 else retries, maxRetries, sendOk) == Attempts(maxRetries, sendOk)
      decreases maxRetries - retries
    {
      var backoff := Pow2(retries) * 100;
      delays := delays + [backoff];   // Thread.sleep(backoff)
      retries := retries + 1;
      sends := sends + [ProducerRecord(Topic, key, value)];
      if sendOk(retries - 1) {
        sent := true;
      } else if retries >= maxRetries {
        exhausted := true;
      }
    }
    assert AttemptsFrom(if sent then retries - 1 else retries, maxRetries, sendOk) == retries;
  }
}
