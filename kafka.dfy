/** The message broker as the services see it: every topic is an append-only
    log of string values, addressed by its name. */
module Kafka {

  type Logs = map<string, seq<string>>

  /** The log of a topic; a topic nobody has written to is empty. */
  function LogOf(logs: Logs, topic: string): seq<string>
  {
    if topic in logs then logs[topic] else []
  }

  /** The logs after appending one value to one topic. */
  function Appended(logs: Logs, topic: string, value: string): (r: Logs)
    ensures LogOf(r, topic) == LogOf(logs, topic) + [value]
    ensures forall t :: t != topic ==> LogOf(r, t) == LogOf(logs, t)
    ensures r.Keys == logs.Keys + {topic}
  {
    logs[topic := LogOf(logs, topic) + [value]]
  }

  /** The broker the producer writes to and the consumer reads from. */
  class Broker {
    var logs: Logs

    constructor ()
      ensures logs == map[]
    {
      logs := map[];
    }

    function Log(topic: string): seq<string>
      reads this
    {
      LogOf(logs, topic)
    }
  }
}
