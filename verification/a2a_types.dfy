/**
 * The parts of the a2a SDK that the uppercase agent touches, as plain values:
 * messages made of parts, the send parameters, the request context and the
 * event queue the executor writes to.
 */
module A2aTypes {
  import opened Wrappers

  datatype Role = User | Agent

  /** A message part. Only a text part carries a `text` attribute. */
  datatype Part =
    | TextPart(text: string)
    | FilePart(file: string)
    | DataPart(data: string)

  datatype Message = Message(role: Role, parts: seq<Part>, messageId: string)

  /** `MessageSendParams`: the user message of a send request. */
  datatype MessageSendParams = MessageSendParams(message: Message)

  /**
   * `RequestContext`, seen as the two attributes the executor probes:
   * the public `params` and the private `_params`; `None` means the
   * attribute does not exist on the object.
   */
  datatype RequestContext = RequestContext(
    params: Option<MessageSendParams>,
    privateParams: Option<MessageSendParams>)

  /** The exceptions the executor can raise. */
  datatype Error =
    | AttributeMissing(name: string)
    | GenericException(message: string)

  /**
   * `new_agent_text_message(text)`: an agent-role message with one text part.
   * The SDK draws the message id from a UUID; here it is a parameter.
   */
  function NewAgentTextMessage(text: string, messageId: string): Message
  {
    Message(Agent, [TextPart(text)], messageId)
  }

  /** The event queue of one request: the events enqueued so far, in order. */
  class EventQueue {
    var events: seq<Message>

    constructor ()
      ensures events == []
    {
      events := [];
    }

    /** `enqueue_event`: appends one event after those already queued. */
    method EnqueueEvent(event: Message)
      modifies this
      ensures events == old(events) + [event]
    {
      events := events + [event];
    }
  }
}
