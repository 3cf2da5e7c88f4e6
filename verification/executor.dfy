/**
 * `UppercaseAgentExecutor`: resolves the send parameters of a request,
 * assembles the user text, upper-cases it and enqueues one agent reply.
 * Cancellation is not supported.
 */
module Executor {
  import opened Wrappers
  import opened A2aTypes
  import opened TextAssembly
  import opened UppercaseAgent

  const CancelNotSupported: string := "cancel not supported"

  /**
   * `getattr(context, "params", context._params)`. Python evaluates the
   * default argument first, so a context without `_params` raises
   * `AttributeError` whether or not it has `params`.
   */
  function ResolveParams(context: RequestContext): (r: Result<MessageSendParams, Error>)
    ensures r.Failure? <==> context.privateParams.None?
    ensures r.Failure? ==> r.error == AttributeMissing("_params")
    ensures r.Success? && context.params.Some? ==> r.value == context.params.value
    ensures r.Success? && context.params.None? ==> r.value == context.privateParams.value
  {
    match context.privateParams
    case None => Failure(AttributeMissing("_params"))
    case Some(fallback) => Success(context.params.GetOr(fallback))
  }

  /** The first accessor, in order, that finds an attribute. */
  function FirstPresent<T>(accessors: seq<Option<T>>): Option<T>
  {
    if accessors == [] then None
    else if accessors[0].Some? then accessors[0]
    else FirstPresent(accessors[1..])
  }

  /**
   * Whenever resolution succeeds it picks what trying `params`, then
   * `_params`, would pick; it fails exactly when `_params` is missing,
   * which includes a context holding only `params`.
   */
  lemma ResolveParamsIsOrderedFallback(context: RequestContext)
    ensures ResolveParams(context).Success? ==>
      FirstPresent([context.params, context.privateParams]) == Some(ResolveParams(context).value)
    ensures context.params.Some? && context.privateParams.None? ==>
      ResolveParams(context).Failure? &&
      FirstPresent([context.params, context.privateParams]) == context.params
    ensures context.params.None? && context.privateParams.None? ==>
      ResolveParams(context).Failure? &&
      FirstPresent([context.params, context.privateParams]).None?
  {
    var accessors := [context.params, context.privateParams];
    if context.params.None? {
      assert FirstPresent(accessors) == FirstPresent(accessors[1..]);
      assert FirstPresent(accessors[1..]) == if context.privateParams.Some? then context.privateParams else FirstPresent([]);
    }
  }

  /**
   * The reply message `new_agent_text_message` builds is an agent message
   * that, read with the same filter and join `execute` applies to a user
   * message, carries exactly the given text (the empty text included).
   */
  lemma ReplyMessageReadsBack(text: string, messageId: string)
    ensures NewAgentTextMessage(text, messageId).role == Agent
    ensures AssembleText(NewAgentTextMessage(text, messageId).parts) == text
  {
    var parts := NewAgentTextMessage(text, messageId).parts;
    assert parts[1..] == [];
    if text == "" {
      assert TextsOf(parts) == [];
    } else {
      assert TextsOf(parts) == [text];
    }
  }

  /** The text of the reply `execute` enqueues, or the exception it raises. */
  function ReplyText(context: RequestContext): (r: Result<string, Error>)
    ensures r.Success? <==> context.privateParams.Some?
    ensures r.Failure? ==> r.error == AttributeMissing("_params")
    ensures r.Success? ==> |r.value| == |AssembleText(ResolveParams(context).value.message.parts)|
  {
    match ResolveParams(context)
    case Failure(e) => Failure(e)
    case Success(params) => Success(Transform(AssembleText(params.message.parts)))
  }

  /** The user message `execute` reads, when parameters resolve. */
  function UserParts(context: RequestContext): seq<Part>
    requires context.privateParams.Some?
  {
    ResolveParams(context).value.message.parts
  }

  /** Upper-cases every string of a list. */
  function UpperEach(xs: seq<string>): (r: seq<string>)
    ensures |r| == |xs|
  {
    if xs == [] then [] else [Upper(xs[0])] + UpperEach(xs[1..])
  }

  lemma {:induction false} UpperJoin(xs: seq<string>)
    ensures Upper(Join(xs)) == Join(UpperEach(xs))
  {
    if |xs| >= 2 {
      UpperJoin(xs[1..]);
      UpperConcat(xs[0] + " ", Join(xs[1..]));
      UpperConcat(xs[0], " ");
      assert UpperEach(xs)[1..] == UpperEach(xs[1..]);
    }
  }

  /**
   * The reply is the kept texts of the user message, each upper-cased, in
   * their original order, joined with one space.
   */
  lemma ReplyIsUppercasedJoin(context: RequestContext)
    requires context.privateParams.Some?
    ensures ReplyText(context) == Success(Join(UpperEach(TextsOf(UserParts(context)))))
  {
    UpperJoin(TextsOf(UserParts(context)));
  }

  /** A user message with no non-empty text part gets an empty reply. */
  lemma ReplyEmptyWithoutText(context: RequestContext)
    requires context.privateParams.Some?
    requires forall p :: p in UserParts(context) ==> !Contributes(p)
    ensures ReplyText(context) == Success("")
  {
  }

  /**
   * The reply depends only on the parts of the user message: two requests
   * with the same parts, whatever their ids and roles, get the same text.
   */
  lemma ReplyDependsOnPartsOnly(c1: RequestContext, c2: RequestContext)
    requires c1.privateParams.Some? && c2.privateParams.Some?
    requires UserParts(c1) == UserParts(c2)
    ensures ReplyText(c1) == ReplyText(c2)
  {
  }

  /** A single text part "salut" is answered with "SALUT". */
  lemma ReplyToSalut(id: string)
    ensures ReplyText(RequestContext(None, Some(MessageSendParams(Message(User, [TextPart("salut")], id)))))
         == Success("SALUT")
  {
    var parts := [TextPart("salut")];
    assert TextsOf(parts) == ["salut"];
    UpperAt("salut", 0);
    UpperAt("salut", 1);
    UpperAt("salut", 2);
    UpperAt("salut", 3);
    UpperAt("salut", 4);
    assert AssembleText(parts) == "salut";
    assert Upper("salut") == "SALUT";
  }

  class UppercaseAgentExecutor {

    constructor ()
    {
    }

    /**
     * `execute`: on success exactly one event, the agent's text reply, is
     * appended to the queue after the events already there; when the
     * parameters cannot be resolved the queue is left as it was. The reply's
     * message id, a fresh UUID in the SDK, is the parameter `messageId`.
     */
    method Execute(context: RequestContext, eventQueue: EventQueue, messageId: string)
      returns (outcome: Outcome<Error>)
      modifies eventQueue
      ensures outcome.Pass? <==> ReplyText(context).Success?
      ensures outcome.Fail? ==>
        outcome.error == ReplyText(context).error && eventQueue.events == old(eventQueue.events)
      ensures outcome.Pass? ==>
        eventQueue.events == old(eventQueue.events) + [NewAgentTextMessage(ReplyText(context).value, messageId)]
    {
      var resolved := ResolveParams(context);
      if resolved.Failure? {
        return Fail(resolved.error);
      }
      var userMessage := resolved.value.message;
      var userText := AssembleText(userMessage.parts);
      var transformed := Transform(userText);
      var responseMessage := NewAgentTextMessage(transformed, messageId);
      eventQueue.EnqueueEvent(responseMessage);
      outcome := Pass;
    }

    /** `cancel`: always raises "cancel not supported"; the queue is not touched. */
    method Cancel(context: RequestContext, eventQueue: EventQueue) returns (outcome: Outcome<Error>)
      ensures outcome == Fail(GenericException(CancelNotSupported))
    {
      outcome := Fail(GenericException(CancelNotSupported));
    }
  }
}
