/** The consumer service's replay: subscribe to the sanitised topic, read the log
    from its first entry, and keep the values whose position lies in
    [startIndex, endIndex), stopping after endIndex reads or on cancellation.

    Cancellation is a parameter. `cancelAfter == Some(c)` says the token fires
    once c reads have completed, which the loop test observes, or, when the log
    runs dry first, while the next read is waiting, which it interrupts.
    `None` says the token never fires. */
module Consumer {
  import opened Wrappers
  import opened Text
  import opened Kafka
  import Producer

  /** The consumer's own copy of the three single-character replacements
      ('/', then '@', then '.' become '_'); the reference definition of the
      name the replay subscribes to. */
  function SanitizeTopicName(topic: string): string
  {
    ReplaceChar(ReplaceChar(ReplaceChar(topic, '/', '_'), '@', '_'), '.', '_')
  }

  /** The consumer's copy sanitises exactly as the producer's, so a raw topic name
      used to publish and to replay addresses one log. */
  lemma SanitizersAgree(topic: string)
    ensures SanitizeTopicName(topic) == Producer.SanitizeTopicName(topic)
    ensures forall i :: 0 <= i < |SanitizeTopicName(topic)| ==> !Producer.IsReplaced(SanitizeTopicName(topic)[i])
    ensures |SanitizeTopicName(topic)| == |topic|
  {
  }

  /** How a replay call ends: it returns the collected values, or, when the log
      runs out before endIndex reads and nothing cancels the wait, it never returns. */
  datatype Replay = Returned(messages: seq<string>) | BlockedForever

  function MinNat(a: nat, b: nat): nat { if a <= b then a else b }

  /** The number of reads the loop asks for. */
  function Wanted(endIndex: int): nat { if endIndex > 0 then endIndex else 0 }

  /** The number of reads after which the loop stops, given enough entries. */
  function ReadLimit(endIndex: int, cancelAfter: Option<nat>): nat
  {
    match cancelAfter
    case None => Wanted(endIndex)
    case Some(c) => MinNat(c, Wanted(endIndex))
  }

  /** The first kept position once `completed` entries have been read. */
  function WindowStart(startIndex: int, completed: nat): nat
  {
    if startIndex < 0 then 0 else if startIndex > completed then completed else startIndex
  }

  predicate CancellationRequested(cancelAfter: Option<nat>, completed: nat)
  {
    cancelAfter.Some? && cancelAfter.value <= completed
  }

  /** The outcome of a replay over `feed`, the entries the subscription delivers. */
  function Consumed(feed: seq<string>, startIndex: int, endIndex: int, cancelAfter: Option<nat>): Replay
  {
    var limit := ReadLimit(endIndex, cancelAfter);
    if limit <= |feed| then Returned(feed[WindowStart(startIndex, limit)..limit])
    else if cancelAfter.None? then BlockedForever
    else Returned(feed[WindowStart(startIndex, |feed|)..])
  }

  /** The number of entries a replay reads, pre-window entries included. */
  function ReadCount(feed: seq<string>, endIndex: int, cancelAfter: Option<nat>): nat
  {
    MinNat(ReadLimit(endIndex, cancelAfter), |feed|)
  }

  class ConsumerService {
    const broker: Broker

    constructor (broker: Broker)
      ensures this.broker == broker
    {
      this.broker := broker;
    }

    /** `ConsumeMessages(topic, startIndex, endIndex, stoppingToken)`: subscribes to
        the sanitised topic and scans its log from the first entry. */
    method ConsumeMessages(topic: string, startIndex: int, endIndex: int, cancelAfter: Option<nat>)
      returns (r: Replay, ghost readCount: nat)
      ensures r == Consumed(broker.Log(SanitizeTopicName(topic)), startIndex, endIndex, cancelAfter)
      ensures readCount == ReadCount(broker.Log(SanitizeTopicName(topic)), endIndex, cancelAfter)
    {
      var feed := broker.Log(SanitizeTopicName(topic));
      r, readCount := ScanFeed(feed, startIndex, endIndex, cancelAfter);
    }
  }

  /** The read loop: while fewer than endIndex entries have been read and the
      token has not fired, read the next entry and keep it when its position is
      at or past startIndex. */
  method ScanFeed(feed: seq<string>, startIndex: int, endIndex: int, cancelAfter: Option<nat>)
    returns (r: Replay, ghost readCount: nat)
    ensures r == Consumed(feed, startIndex, endIndex, cancelAfter)
    ensures readCount == ReadCount(feed, endIndex, cancelAfter)
  {
    ghost var limit := ReadLimit(endIndex, cancelAfter);
    var messages: seq<string> := [];
    var currentIndex: nat := 0;
    while currentIndex < endIndex && !CancellationRequested(cancelAfter, currentIndex)
      invariant currentIndex <= limit
      invariant currentIndex <= |feed|
      invariant messages == Collected(feed, startIndex, currentIndex)
      decreases endIndex - currentIndex
    {
      StillBelowLimit(endIndex, cancelAfter, currentIndex);
      if currentIndex == |feed| {
        StarvedScan(feed, startIndex, endIndex, cancelAfter);
        CollectedIsWindow(feed, startIndex, currentIndex);
        // Consume blocks until an entry arrives, which none does
        if cancelAfter.None? {
          return BlockedForever, currentIndex;
        }
        // the token fires during the wait: OperationCanceledException is caught
        return Returned(messages), currentIndex;
      }
      var value := feed[currentIndex];
      if currentIndex >= startIndex && currentIndex < endIndex {
        messages := messages + [value];
      }
      currentIndex := currentIndex + 1;
    }
    StoppedScan(feed, startIndex, endIndex, cancelAfter, currentIndex);
    CollectedIsWindow(feed, startIndex, currentIndex);
    return Returned(messages), currentIndex;
  }

  /** The values the loop has kept after reading the first `n` entries. */
  function Collected(feed: seq<string>, startIndex: int, n: nat): seq<string>
    requires n <= |feed|
  {
    if n == 0 then []
    else Collected(feed, startIndex, n - 1) + (if n - 1 >= startIndex then [feed[n - 1]] else [])
  }

  /** What the loop has kept is the run of entries from the window start up to `n`. */
  lemma {:induction false} CollectedIsWindow(feed: seq<string>, startIndex: int, n: nat)
    requires n <= |feed|
    ensures Collected(feed, startIndex, n) == feed[WindowStart(startIndex, n)..n]
  {
    if n > 0 {
      CollectedIsWindow(feed, startIndex, n - 1);
      WindowStartSteady(startIndex, n - 1);
      if n - 1 >= startIndex {
        SliceExtend(feed, WindowStart(startIndex, n - 1), n - 1);
      }
    }
  }

  lemma StillBelowLimit(endIndex: int, cancelAfter: Option<nat>, currentIndex: nat)
    requires currentIndex < endIndex && !CancellationRequested(cancelAfter, currentIndex)
    ensures currentIndex < ReadLimit(endIndex, cancelAfter)
  {
  }

  /** The scan ran out of entries before its read limit. */
  lemma StarvedScan(feed: seq<string>, startIndex: int, endIndex: int, cancelAfter: Option<nat>)
    requires |feed| < ReadLimit(endIndex, cancelAfter)
    ensures ReadCount(feed, endIndex, cancelAfter) == |feed|
    ensures Consumed(feed, startIndex, endIndex, cancelAfter)
            == if cancelAfter.None? then BlockedForever
               else Returned(feed[WindowStart(startIndex, |feed|)..|feed|])
  {
    assert feed[WindowStart(startIndex, |feed|)..] == feed[WindowStart(startIndex, |feed|)..|feed|];
  }

  /** The loop test failed: the scan stopped exactly at its read limit. */
  lemma StoppedScan(feed: seq<string>, startIndex: int, endIndex: int, cancelAfter: Option<nat>, currentIndex: nat)
    requires currentIndex <= ReadLimit(endIndex, cancelAfter) && currentIndex <= |feed|
    requires !(currentIndex < endIndex && !CancellationRequested(cancelAfter, currentIndex))
    ensures ReadCount(feed, endIndex, cancelAfter) == currentIndex
    ensures Consumed(feed, startIndex, endIndex, cancelAfter)
            == Returned(feed[WindowStart(startIndex, currentIndex)..currentIndex])
  {
    assert currentIndex == ReadLimit(endIndex, cancelAfter);
  }

  /** A position at or past startIndex is kept: the window start does not move. */
  lemma WindowStartSteady(startIndex: int, currentIndex: nat)
    ensures currentIndex >= startIndex ==> WindowStart(startIndex, currentIndex + 1) == WindowStart(startIndex, currentIndex)
    ensures currentIndex < startIndex ==> WindowStart(startIndex, currentIndex + 1) == currentIndex + 1
  {
  }

  lemma SliceExtend(s: seq<string>, i: nat, j: nat)
    requires i <= j < |s|
    ensures s[i..j + 1] == s[i..j] + [s[j]]
  {
  }

  /** Without cancellation, a window inside the log is returned as is, in log
      order, after exactly endIndex reads. */
  lemma ConsumeWholeWindow(feed: seq<string>, startIndex: int, endIndex: int)
    requires 0 <= startIndex <= endIndex <= |feed|
    ensures Consumed(feed, startIndex, endIndex, None) == Returned(feed[startIndex..endIndex])
    ensures ReadCount(feed, endIndex, None) == endIndex
  {
  }

  /** With endIndex <= 0 nothing is read and nothing is returned. */
  lemma ConsumeNothingWhenEndNonPositive(feed: seq<string>, startIndex: int, endIndex: int, cancelAfter: Option<nat>)
    requires endIndex <= 0
    ensures Consumed(feed, startIndex, endIndex, cancelAfter) == Returned([])
    ensures ReadCount(feed, endIndex, cancelAfter) == 0
  {
  }

  /** A window with startIndex >= endIndex collects nothing. */
  lemma EmptyWindowCollectsNothing(feed: seq<string>, startIndex: int, endIndex: int, cancelAfter: Option<nat>)
    requires startIndex >= endIndex
    ensures Consumed(feed, startIndex, endIndex, cancelAfter).Returned? ==>
              Consumed(feed, startIndex, endIndex, cancelAfter).messages == []
  {
  }

  /** What a returned replay holds: consecutive log entries from position
      max(startIndex, 0) on, below endIndex, at most endIndex - max(startIndex, 0) of them. */
  lemma ReturnedValuesComeFromWindow(feed: seq<string>, startIndex: int, endIndex: int, cancelAfter: Option<nat>)
    ensures var r := Consumed(feed, startIndex, endIndex, cancelAfter);
            r.Returned? ==>
              var first := if startIndex < 0 then 0 else startIndex;
              && |r.messages| <= Wanted(endIndex - first)
              && forall k :: 0 <= k < |r.messages| ==>
                   first + k < endIndex && first + k < |feed| && r.messages[k] == feed[first + k]
  {
  }

  /** A cancelled replay always returns, and what it returns is a prefix of what
      the same replay returns when it is not cancelled. */
  lemma CancelledReplayIsPrefix(feed: seq<string>, startIndex: int, endIndex: int, c: nat)
    ensures Consumed(feed, startIndex, endIndex, Some(c)).Returned?
    ensures Consumed(feed, startIndex, endIndex, None).Returned? ==>
              var partial := Consumed(feed, startIndex, endIndex, Some(c)).messages;
              var full := Consumed(feed, startIndex, endIndex, None).messages;
              |partial| <= |full| && partial == full[..|partial|]
  {
    var limit := ReadLimit(endIndex, None);
    var cut := ReadLimit(endIndex, Some(c));
    if limit <= |feed| {
      var full := feed[WindowStart(startIndex, limit)..limit];
      var partial := feed[WindowStart(startIndex, cut)..cut];
      if startIndex <= cut {
        assert partial == full[..|partial|];
      } else {
        assert partial == [];
      }
    }
  }

  /** Publishing to a raw topic name and replaying the same raw name: the replayed
      log is the old log with the published value at its end. */
  lemma ReplaySeesPublished(logs: Logs, topic: string, message: string)
    ensures LogOf(Appended(logs, Producer.SanitizeTopicName(topic), message), SanitizeTopicName(topic))
            == LogOf(logs, SanitizeTopicName(topic)) + [message]
  {
    SanitizersAgree(topic);
  }
}
