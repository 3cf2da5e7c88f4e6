# Uppercase echo agent for the A2A protocol

This project models the uppercase echo agent of `a2a_example.py`. The agent
is an A2A `AgentExecutor`. For each `message/send` or `message/stream`
request, its `execute`:

1. resolves the send parameters from the request context. It uses the public
   `params` attribute if it exists, otherwise the private `_params`.
2. keeps the parts of the user message that carry a non-empty `text`, in
   order, and joins their texts with single spaces.
3. upper-cases the result.
4. enqueues one agent text message holding the result on the request's event
   queue.

`cancel` always raises `Exception("cancel not supported")`.

Modules:

- `Wrappers` (`wrappers.dfy`): `Option`, `Result` and `Outcome`. A raised
  exception becomes a `Failure`/`Fail` value.
- `A2aTypes` (`a2a_types.dfy`): the SDK entities the agent touches, as plain
  values:
  - `Part`, `Message`, `MessageSendParams`;
  - `RequestContext`, with its two optional attributes;
  - the exceptions;
  - `new_agent_text_message`.

  It also holds `EventQueue`, a class whose `events: seq<Message>` field grows
  in place.
- `TextAssembly` (`text_assembly.dfy`): the part filter and
  `" ".join`. `Split` (Python's `split(" ")`) serves as the inverse of the
  join.
- `UppercaseAgent` (`uppercase_agent.dfy`): `transform` and its
  character-level case mapping. `LowerChar` is the independent reference that
  the mapping is checked against.
- `Executor` (`executor.dfy`):
  - parameter resolution;
  - the reply text;
  - the class `UppercaseAgentExecutor`, whose methods `Execute` and `Cancel`
    act on an `EventQueue`.

Python evaluates the default argument of
`getattr(context, "params", context._params)` before the call. So a context
that lacks `_params` raises `AttributeError`, even when it has `params`. The
model keeps this behaviour. `ResolveParamsIsOrderedFallback` compares it with
the ordered fallback "try `params`, then `_params`":

- the two agree whenever resolution succeeds;
- with neither attribute, both fail;
- they differ only on a context holding `params` but not `_params`.

## Model

| member | source | states |
|---|---|---|
| `A2aTypes.EventQueue.EnqueueEvent` | a2a_example.py:78 | enqueuing appends the event after the events already queued; earlier events keep their values and order |
| `Executor.ReplyMessageReadsBack` | a2a_example.py:77 | the reply message `new_agent_text_message` builds has the agent role and, read with the executor's own filter-and-join, carries exactly the given text, the empty text included |
| `TextAssembly.Contributes` | a2a_example.py:70 | the filter `getattr(part, "text", None)` followed by Python truthiness admits a part if and only if it has a `text` attribute holding a non-empty string |
| `TextAssembly.TextsOf` | a2a_example.py:69-71 | every text the part filter keeps is non-empty, and there are no more texts than parts |
| `TextAssembly.TextsOfConcat` | a2a_example.py:69-71 | filtering a concatenation of parts gives the first half's texts followed by the second half's, so the original order is kept |
| `TextAssembly.TextsOfMember` | a2a_example.py:70 | a string is among the kept texts if and only if some part carries it as a non-empty `text` |
| `TextAssembly.TextsEmptyIff` | a2a_example.py:70 | no text is kept if and only if no part carries a non-empty `text` |
| `TextAssembly.Join` | a2a_example.py:69 | `" ".join` of no strings is the empty string; of one or more strings it has their total length plus exactly one separator between each two |
| `TextAssembly.JoinEmptyIff` | a2a_example.py:69 | joining non-empty strings with spaces gives the empty string if and only if there are no strings |
| `TextAssembly.JoinConcat` | a2a_example.py:69 | joining two non-empty lists gives their two joins with exactly one space between them |
| `TextAssembly.SplitJoin` | a2a_example.py:69 | splitting the joined text on spaces gives the list back when it is non-empty and no element contains a space, so the join loses nothing |
| `TextAssembly.AssembleText` | a2a_example.py:69-71 | the user text is empty if and only if no part of the message carries a non-empty `text` |
| `TextAssembly.AssembleTextConcat` | a2a_example.py:69-71 | the user text of two part lists in sequence is the two texts in order, with a single space between them only when both are non-empty |
| `TextAssembly.AssembleTextSkips` | a2a_example.py:70 | a part with no `text` or an empty `text` adds nothing to the user text, not even a separator, wherever it sits |
| `TextAssembly.AssembleTextAppend` | a2a_example.py:69-71 | a text part added last adds its text, preceded by one space unless no text came before |
| `TextAssembly.AssembleTextRecoverable` | a2a_example.py:69-71 | when at least one part carries a non-empty `text` and no part text contains a space, splitting the user text on spaces gives back the kept part texts one by one, in order |
| `UppercaseAgent.Upper` | a2a_example.py:38 | upper-casing keeps the length of the string |
| `UppercaseAgent.UpperAt` | a2a_example.py:38 | each character of the result is the upper-case mapping of the character at the same position |
| `UppercaseAgent.UpperPointwise` | a2a_example.py:38 | the result differs from the input only in the case of ASCII letters and holds no ASCII lower-case letter |
| `UppercaseAgent.UpperConcat` | a2a_example.py:38 | upper-casing a concatenation upper-cases each piece separately |
| `UppercaseAgent.Transform` | a2a_example.py:35-38 | `transform` returns a string of the same length that differs from its input only in the case of ASCII letters and holds no ASCII lower-case letter; the simulated delay does not enter the value |
| `UppercaseAgent.TransformUnique` | a2a_example.py:35-38 | those two properties fix the result of `transform` completely |
| `UppercaseAgent.TransformIdempotent` | a2a_example.py:38 | transforming an already transformed text changes nothing |
| `Executor.ResolveParams` | a2a_example.py:65 | resolution fails with `AttributeError` on `_params` exactly when the context has no `_params`; otherwise it yields `params` when present, else `_params` |
| `Executor.ResolveParamsIsOrderedFallback` | a2a_example.py:65 | a successful resolution agrees with trying `params` and then `_params`; with neither attribute both fail; a context with `params` but no `_params` still fails, because the default argument is evaluated first |
| `Executor.ReplyText` | a2a_example.py:65-74 | the reply text, or the AttributeError from resolving `_params`: it fails if and only if the context has no `_params`, the failure is that AttributeError, and on success the reply has the length of the assembled user text |
| `Executor.UpperJoin` | a2a_example.py:69-74 | upper-casing the joined text is the same as joining the upper-cased texts, since the space separator is unchanged |
| `Executor.ReplyIsUppercasedJoin` | a2a_example.py:65-74 | the reply text is the user message's kept part texts, each upper-cased, in their original order, joined with one space |
| `Executor.ReplyEmptyWithoutText` | a2a_example.py:69-77 | a user message with no part carrying a non-empty `text` gets a reply whose text is empty |
| `Executor.ReplyDependsOnPartsOnly` | a2a_example.py:66-74 | two requests whose user messages have the same parts get the same reply text, whatever their message ids |
| `Executor.ReplyToSalut` | a2a_example.py:65-74 | a user message with the single text part "salut" is answered with "SALUT" |
| `Executor.UppercaseAgentExecutor.Execute` | a2a_example.py:50-78 | on success exactly one event is appended to the queue: an agent-role message whose single text part is the reply text; the queued events before it are unchanged; when parameters cannot be resolved it raises and enqueues nothing |
| `Executor.UppercaseAgentExecutor.Cancel` | a2a_example.py:80-82 | `cancel` always fails with the exception "cancel not supported" and modifies nothing, so the queue is unchanged |

## Left out

- Transform: models `str.upper` as the ASCII mapping `a`..`z` to `A`..`Z`, with every other character unchanged. Python's full Unicode case mapping, which can change a string's length (for example `ß` becomes `SS`), is library behaviour outside this model.
- Upper: the same ASCII restriction as `Transform`.
- `asyncio.sleep(0.1)` in `transform` is timing only and is modelled as no step. Asynchrony and scheduling of the coroutines are not modelled.
- `new_agent_text_message` draws a fresh UUID as the message id. Here the id is the parameter `messageId` of `Execute`. The message's optional context and task ids (left at `None` by the agent) are not modelled.
- The a2a SDK (`EventQueue`, `RequestContext`, `MessageSendParams`, `Part`, `new_agent_text_message`) is not part of this model. These appear only as the plain values and the append-only queue described above.
  - The queue's closing, FIFO delivery to a consumer and `QueueClosed` errors belong to the SDK and are not modelled.
  - How the SDK wraps a `Part` around its text, file or data variant is not visible. A part is modelled as carrying a `text` attribute exactly when it is a text part.
- Attributes that exist but hold `None`, or hold a value of an unexpected type, are not modelled. A context's `params`/`_params` is either absent or a send-parameters value, and a text is always a string.
- `DefaultRequestHandler`, `InMemoryTaskStore` and `A2AStarletteApplication` (a2a_example.py:113-122) are not part of this model. They are SDK code, and so are the task lifecycle and the unary and streaming request handling.
- The `AgentSkill` and `AgentCard` constants (a2a_example.py:88-108) are static configuration with no behaviour.
- test_python.py is a client that resolves the agent card over HTTP, sends one unary and one streaming request, and prints the replies. It is network I/O only. Its input "salut" appears in `ReplyToSalut`.
