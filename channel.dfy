/**
 * The emitter shared by the scroll observer and the sequence manager,
 * modelled as the log of what was emitted and the list of topics that
 * handlers were registered for.
 */
module Channel {

  /** An emitted event: its topic and its `{ percentage }` payload. */
  datatype Message = Message(topic: string, percentage: real)

  const ScrollUpdateTopic: string := "scrollUpdate"

  function ScrollUpdate(percentage: real): Message {
    Message(ScrollUpdateTopic, percentage)
  }

  class Emitter {
    /** Every `emit(topic, payload)`, in order. */
    var events: seq<Message>
    /** Every `on(topic, handler)` registration, in order. */
    var topics: seq<string>

    constructor ()
      ensures events == [] && topics == []
    {
      events := [];
      topics := [];
    }

    method Emit(message: Message)
      modifies this
      ensures events == old(events) + [message]
      ensures topics == old(topics)
    {
      events := events + [message];
    }

    method On(topic: string)
      modifies this
      ensures topics == old(topics) + [topic]
      ensures events == old(events)
    {
      topics := topics + [topic];
    }
  }
}
