# CentralManager of ZebraKing, modelled in Dafny

ZebraKing's `CentralManager` is the in-memory hub of the chat kit. It keeps
three things:

- the registry `conversationList`: a Swift `Set<Conversation>`, with one
  conversation per (type, receiver id);
- the listener set `onResponseNotification`: a `Set<ListenterMessages>`
  whose equality and hash look at the flag alone;
- the conversation the user is chatting in, `chattingConversation`.

It dispatches every batch of incoming SDK messages: a registered conversation
gets its receive callback, a message for the held conversation is marked read,
and otherwise the listener set is notified, unless the message is the user's
own and its conversation is already registered.

The model is a Dafny class `Manager.CentralManager` with those three fields and
one method per operation of the Swift class. A ghost `log` records the side
effects the manager has on objects it does not own:

- freeing a conversation;
- a conversation's receive callback;
- marking a message read;
- each listener invocation;
- subscribing to, unsubscribing from and deleting in the SDK.

Each method is proved against specification functions on values, and the
properties the manager guarantees are lemmas about those functions:

- `Conversations`: the registry operations `Lookup`, `InsertConversation` and
  `Resolve` (find-or-create). Conversation equality is identity by (type,
  receiver id), as in the lookup predicate of `conversation(with:id:)`.
- `Listeners`: entries, flag-only equality, `InsertEntry` (Swift's
  `Set.insert` keeps the element already present) and `RemoveEntry`.
- `Events`: the events of the log and the fan-out of `handlerNotification`. The
  fan-out is the multiset `Fanout`, because a Swift `Set` is visited in no
  specified order. A trace is a sequence of `Step`s, each either one event or
  a fan-out whose events may come in any order. The predicate `Conforms` says
  that a log is such a trace.
- `Dispatch`: one pass of the `for` loop of `onNewMessage` (`StepItem`) and a
  whole batch (`Run`).
- `Manager`: the class, with invariants `RegistryValid` (unique identities, and
  the held conversation is registered) and `ListenersValid` (one entry per
  flag, each with the completion its flag calls for).

Where the code differs from a natural reading of it, the model follows the
code:

- The `return` statements at lines 117 and 129 of `onNewMessage` leave the
  whole method. In the code, a non-`TIMMessage`, a message without a
  conversation, or a message for the held conversation ends the rest of the
  batch, not only that message (`Dispatch.UnattributableEndsBatch`,
  `Dispatch.ActiveConversationIsMarkedRead`).
- For a registered conversation, `handlerNotification` is called with the
  wrapper freshly built from the message (line 134), not with the registered
  instance. The receiver id and last message passed to the listeners are
  therefore the new wrapper's.
- `completion = nil` at line 66 assigns to a copy of the struct. It has no
  effect: `removeListenter` just removes the entry with that flag.

Consequences of the code that the lemmas make explicit:

- Registering a listener twice with the same flag keeps the first completion
  and silently drops the second.
- The unread-count entry reports the count captured at registration, whatever
  conversation the notification is for.

## Model

All source paths are under `ZebraKing/Classes/Manager/`.

| member | source | states |
|---|---|---|
| Conversations.Matches | ZebraKing/Classes/Manager/CentralManager.swift:50 | defines the lookup predicate: same receiver id and same type |
| Conversations.Same | ZebraKing/Classes/Manager/CentralManager.swift:122 | defines conversation equality as identity by type and receiver id, whatever the last message |
| Conversations.Lookup | ZebraKing/Classes/Manager/CentralManager.swift:50 | finds a registered conversation with the given type and id exactly when one exists; under unique identities it is the only one |
| Conversations.InsertConversation | ZebraKing/Classes/Manager/CentralManager.swift:55 | set insertion under identity equality: adds at most the new element, adds it exactly when its identity is absent, keeps the identity unique, and the identity is registered afterwards |
| Conversations.Resolve | ZebraKing/Classes/Manager/CentralManager.swift:48-60 | find-or-create: an existing match is returned with the registry unchanged; otherwise a successfully built conversation is returned and added; nil exactly when the identity is unknown and construction fails, and then nothing changes; identities stay unique |
| Conversations.BuiltFor | ZebraKing/Classes/Manager/CentralManager.swift:54 | says what the failable initialiser may give: nothing, or a conversation with the requested type and id |
| Conversations.UnreadOrZero | ZebraKing/Classes/Manager/CentralManager.swift:94 | the count `listenerUnReadCount` captures: the SDK's unread count of the resolved conversation when there is one, otherwise 0 |
| Conversations.ResolveIsStable | ZebraKing/Classes/Manager/CentralManager.swift:48-60 | once a lookup has returned a conversation, a second lookup with the same identity returns the same one and leaves the registry alone, whatever construction would now give |
| Listeners.Call | ZebraKing/Classes/Manager/CentralManager.swift:96-98 | invoking a completion: a caller's notification handler receives the receiver id and content; the unread-count closure ignores both and hands its handler the captured count |
| Listeners.SameEntry | ZebraKing/Classes/Manager/CentralManager.swift:183-185 | defines listener equality: two entries are equal when their flags are, whatever their completions |
| Listeners.InsertEntry | ZebraKing/Classes/Manager/CentralManager.swift:177-186 | insertion under flag-only equality: no change when the flag is registered, otherwise the entry is added; one entry per flag and well-typed completions are kept; the flag is registered afterwards |
| Listeners.RemoveEntry | ZebraKing/Classes/Manager/CentralManager.swift:62-68 | removes the entry with the flag, if any: the result is a subset, the flag is no longer registered, entries with other flags stay, no change without such an entry, and both invariants are kept |
| Listeners.RegisterTwiceKeepsFirst | ZebraKing/Classes/Manager/CentralManager.swift:80-83 | registering two entries with the same flag leaves only the first; a different second entry is not in the set |
| Listeners.AtMostOnePerFlag | ZebraKing/Classes/Manager/CentralManager.swift:183-185 | under flag-only equality at most one entry carries a given flag |
| Listeners.AtMostTwoEntries | ZebraKing/Classes/Manager/CentralManager.swift:158-165 | with two flags the listener set never holds more than two entries |
| Events.Fanout | ZebraKing/Classes/Manager/CentralManager.swift:147-150 | defines the invocations of `handlerNotification`: one per entry of the listener set, each with the conversation's receiver id and last message, as a multiset because the set is visited in no specified order |
| Events.FanoutPick | ZebraKing/Classes/Manager/CentralManager.swift:149 | the fan-out does not depend on which entry the set visits first |
| Events.FanoutSize | ZebraKing/Classes/Manager/CentralManager.swift:149 | one invocation per registered entry |
| Events.FanoutContains | ZebraKing/Classes/Manager/CentralManager.swift:149 | every registered entry is invoked with the receiver id and content |
| Events.FanoutOnly | ZebraKing/Classes/Manager/CentralManager.swift:149 | every invocation is that of a registered entry with the same receiver id and content |
| Events.FanoutMembers | ZebraKing/Classes/Manager/CentralManager.swift:147-150 | an event is in the fan-out if and only if it is the invocation of a registered entry |
| Events.FanoutOnce | ZebraKing/Classes/Manager/CentralManager.swift:147-150 | with one entry per flag each registered entry is invoked exactly once |
| Events.FanoutReportsCapturedCount | ZebraKing/Classes/Manager/CentralManager.swift:94-100 | an unread-count entry delivers the count captured at registration, whatever receiver id and content the fan-out carries |
| Events.FanoutDeliveries | ZebraKing/Classes/Manager/CentralManager.swift:96-100 | with well-typed entries, every unread-count invocation delivers a count and every outside-notification invocation forwards the receiver id and content it was given |
| Events.ConformsFanOut | ZebraKing/Classes/Manager/CentralManager.swift:149 | a log is one fan-out step exactly when its events, as a multiset, are that fan-out |
| Events.ConformsAppend | ZebraKing/Classes/Manager/CentralManager.swift:112-145 | a log of two traces performed one after the other conforms to the concatenated trace |
| Dispatch.Unattributable | ZebraKing/Classes/Manager/CentralManager.swift:116-117 | defines the guard: the item is not a `TIMMessage`, or its message has no conversation |
| Dispatch.IsChatting | ZebraKing/Classes/Manager/CentralManager.swift:127 | defines the comparison with the held conversation: false when nothing is held, otherwise identity equality |
| Dispatch.StepItem | ZebraKing/Classes/Manager/CentralManager.swift:116-142 | one loop pass only ever adds the message's own conversation to the registry and keeps identities unique |
| Dispatch.Run | ZebraKing/Classes/Manager/CentralManager.swift:110-145 | a whole batch only grows the registry and keeps identities unique |
| Dispatch.RunConcat | ZebraKing/Classes/Manager/CentralManager.swift:112-144 | a batch split in two: the second part runs on the registry the first part left, unless the first part returned |
| Dispatch.UnattributableEndsBatch | ZebraKing/Classes/Manager/CentralManager.swift:116-117 | a non-message, or a message without a conversation, ends the batch: the effects of the items before it stand and the items after it are ignored |
| Dispatch.KnownConversationStep | ZebraKing/Classes/Manager/CentralManager.swift:122-136 | a message for a registered conversation: the receive callback, then marking read and returning when it is the held one, otherwise a fan-out unless the message is the user's own |
| Dispatch.ActiveConversationIsMarkedRead | ZebraKing/Classes/Manager/CentralManager.swift:122-130 | a message for the held conversation calls its receive callback, marks the message read once, invokes no listener and ends the batch with the registry unchanged |
| Dispatch.KnownConversationNotifiesUnlessSelf | ZebraKing/Classes/Manager/CentralManager.swift:122-136 | for a registered conversation that is not held: the registry is unchanged, the batch goes on, the receive callback comes first, and the listeners are notified if and only if the message is not the user's own |
| Dispatch.UnknownConversationStep | ZebraKing/Classes/Manager/CentralManager.swift:138-142 | a message for an unregistered conversation adds it and fans out with its receiver id and last message |
| Dispatch.UnknownConversationIsInserted | ZebraKing/Classes/Manager/CentralManager.swift:138-142 | for an unregistered conversation the registry gains exactly one element, the batch goes on, and every listener is invoked exactly once, own message or not |
| Manager.CentralManager.constructor | ZebraKing/Classes/Manager/CentralManager.swift:15-21 | empty registry, no listener, nothing held, no side effect; the invariants hold |
| Manager.CentralManager.HoldChat | ZebraKing/Classes/Manager/CentralManager.swift:29-33 | the result and the new registry are those of find-or-create, and the result, nil included, becomes the held conversation; the previous one is not freed |
| Manager.CentralManager.WaiveChat | ZebraKing/Classes/Manager/CentralManager.swift:37-40 | frees the held conversation if there is one, then holds nothing; the registry and listeners are unchanged |
| Manager.CentralManager.ConversationWith | ZebraKing/Classes/Manager/CentralManager.swift:48-60 | returns and leaves behind exactly what find-or-create specifies; nothing else changes |
| Manager.CentralManager.RemoveListenter | ZebraKing/Classes/Manager/CentralManager.swift:62-68 | the listener set becomes the removal of that flag's entry; nothing else changes |
| Manager.CentralManager.DeleteConversation | ZebraKing/Classes/Manager/CentralManager.swift:71-73 | asks the SDK to delete that conversation; the in-memory registry is not touched |
| Manager.CentralManager.ListenterMessages | ZebraKing/Classes/Manager/CentralManager.swift:80-83 | subscribes to the SDK and inserts a forwarding outside-notification entry, which is dropped if one is already registered |
| Manager.CentralManager.RemoveListenerMessage | ZebraKing/Classes/Manager/CentralManager.swift:85-88 | unsubscribes from the SDK and removes the outside-notification entry |
| Manager.CentralManager.ListenerUnReadCount | ZebraKing/Classes/Manager/CentralManager.swift:91-101 | the registry becomes that of find-or-create, and an unread entry capturing the unread count the SDK reports at the time of the call (0 without a conversation) is inserted, first registration winning |
| Manager.CentralManager.RemoveListenerUnReadCount | ZebraKing/Classes/Manager/CentralManager.swift:103-105 | removes the unread entry |
| Manager.CentralManager.HandlerNotification | ZebraKing/Classes/Manager/CentralManager.swift:147-150 | appends to the log exactly the fan-out of the listener set with the conversation's receiver id and last message, in some order |
| Manager.CentralManager.OnNewMessage | ZebraKing/Classes/Manager/CentralManager.swift:110-145 | the registry becomes that of the batch specification, the listeners and held conversation are unchanged, the log is extended, and the extension conforms to the batch's trace |
| Manager.CentralManager.HandleItem | ZebraKing/Classes/Manager/CentralManager.swift:112-142 | one loop pass: the new registry, whether the pass returned, and the appended side effects are those of the step specification |
| Manager.CentralManager.ReceiveKnown | ZebraKing/Classes/Manager/CentralManager.swift:122-136 | the side effects for a registered conversation are those of the step specification |
| Manager.CentralManager.ReceiveNew | ZebraKing/Classes/Manager/CentralManager.swift:138-142 | the registry gains the conversation and the appended side effects are those of the step specification |

## Left out

- `ConversationViewController` and the rest of the kit are not part of this model; only `CentralManager` is.
- `Conversation.swift` is not part of this model. The model takes the wrapper's equality to be identity by type and receiver id. Of a wrapper it keeps only its last message text (`getLastMessage`), read when the wrapper is built. A registered wrapper keeps the text it had when it entered the registry; the manager only ever reads the text of the wrapper built from an incoming message.
- The unread count (`unreadMessageCount`) lives in the SDK, so it is not a field of the model's wrapper. `ListenerUnReadCount` takes the count the SDK reports at the time of the call as its parameter `unread`.
- `BuiltFor` assumes that `Conversation(type:id:)` either fails or returns a wrapper with exactly the requested type and id. That assumption is about `Conversation.swift`, which is not part of this model.
- Receiver ids are compared character by character (`Conversations.Matches`). Swift's `String ==` at lines 50 and 122 compares by canonical equivalence, so a precomposed and a decomposed accented letter are one identity in Swift and two in the model.
- The failable `Conversation(type:id:)` is a parameter `built` of each call, because its outcome is decided inside the SDK.
- `getReceiver()` at line 149 is taken to be the wrapper's receiver id.
- `TIMManager` calls are logged events (`SdkAdd`, `SdkRemove`, `SdkDelete`). The `?` chaining on `sharedInstance()` is not modelled: the event is always logged.
- The force-unwraps, which trap on nil, are not modelled: `sharedInstance()` without `?` at line 81, and the implicitly unwrapped batch `msgs: [Any]!` at line 110. The model always has a manager instance and a batch.
- `free()`, `alreadyRead(message:)` and a conversation's receive callback are logged events. The callback being nil is not modelled: `Received` is always logged.
- Handler closures are opaque numbers. What a caller's handler then does is not modelled.
- The `print` at line 114 is not modelled, because it has no effect on state.
- The order in which a Swift `Set` is iterated is not modelled, so a fan-out is a multiset of events.
- Threading is not modelled. The manager is taken to run on one thread, with batches handled one at a time.
- Manager.CentralManager.HandleItem, Manager.CentralManager.ReceiveKnown and Manager.CentralManager.ReceiveNew: these are the body of the `for` loop of `onNewMessage`, split into helper methods so that each path is proved on its own. The Swift code has no such methods.
