/** The producer service: it sanitises a topic name and appends one message
    value to that topic's log. */
module Producer {
  import opened Text
  import opened Kafka

  /** A character the sanitiser replaces by '_'. */
  predicate IsReplaced(c: char) { c == '/' || c == '@' || c == '.' }

  /** The three single-character replacements: '/', then '@', then '.' become '_'. */
  function SanitizeTopicName(topic: string): (r: string)
    ensures |r| == |topic|
    ensures forall i :: 0 <= i < |topic| ==> r[i] == if IsReplaced(topic[i]) then '_' else topic[i]
    ensures forall i :: 0 <= i < |r| ==> !IsReplaced(r[i])
  {
    ReplaceChar(ReplaceChar(ReplaceChar(topic, '/', '_'), '@', '_'), '.', '_')
  }

  /** Sanitising a sanitised name changes nothing. */
  lemma SanitizeIdempotent(topic: string)
    ensures SanitizeTopicName(SanitizeTopicName(topic)) == SanitizeTopicName(topic)
  {
    var once := SanitizeTopicName(topic);
    var twice := SanitizeTopicName(once);
    forall i | 0 <= i < |once| ensures twice[i] == once[i] {
      assert !IsReplaced(once[i]);
    }
  }

  /** A name is left as it is exactly when it holds none of '/', '@', '.'. */
  lemma SanitizeFixesCleanNames(topic: string)
    ensures SanitizeTopicName(topic) == topic <==> forall i :: 0 <= i < |topic| ==> !IsReplaced(topic[i])
  {
    var r := SanitizeTopicName(topic);
    if forall i :: 0 <= i < |topic| ==> !IsReplaced(topic[i]) {
      forall i | 0 <= i < |topic| ensures r[i] == topic[i] { }
    }
  }

  /** Different raw names can share one topic: "a.b" and "a@b" both become "a_b". */
  lemma SanitizeNotInjective()
    ensures "a.b" != "a@b" && SanitizeTopicName("a.b") == SanitizeTopicName("a@b") == "a_b"
  {
    var x := SanitizeTopicName("a.b");
    var y := SanitizeTopicName("a@b");
    assert x[0] == 'a' && x[1] == '_' && x[2] == 'b';
    assert y[0] == 'a' && y[1] == '_' && y[2] == 'b';
    assert x == "a_b";
    assert y == "a_b";
  }

  class ProducerService {
    const broker: Broker

    constructor (broker: Broker)
      ensures this.broker == broker
    {
      this.broker := broker;
    }

    /** Publishes `message` unchanged to the sanitised topic; no other topic's log changes. */
    method ProduceAsync(topic: string, message: string)
      modifies broker
      ensures broker.logs == Appended(old(broker.logs), SanitizeTopicName(topic), message)
      ensures broker.Log(SanitizeTopicName(topic)) == old(broker.Log(SanitizeTopicName(topic))) + [message]
      ensures forall t :: t != SanitizeTopicName(topic) ==> broker.Log(t) == old(broker.Log(t))
    {
      var sanitizedTopic := SanitizeTopicName(topic);
      var kafkaMessage := message;
      broker.logs := Appended(broker.logs, sanitizedTopic, kafkaMessage);
    }
  }
}
