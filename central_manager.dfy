/**
 * `CentralManager`: the conversation registry, the listener set and the held
 * conversation, updated in place, with a log of the side effects each
 * operation has on conversations, listeners and the SDK.
 */
module Manager {
  import opened Wrappers
  import opened Conversations
  import opened Listeners
  import opened Events
  import opened Dispatch

  class CentralManager {
    var conversationList: set<Conversation>
    var onResponseNotification: set<ListenerEntry>
    var chattingConversation: Option<Conversation>
    /** The side effects performed so far, oldest first. */
    ghost var log: seq<Event>

    /** One conversation per identity, and a held conversation, if any, that is a registry member. */
    ghost predicate RegistryValid()
      reads this`conversationList, this`chattingConversation
    {
      UniqueKeys(conversationList) &&
      (chattingConversation.Some? ==> chattingConversation.value in conversationList)
    }

    /** One listener entry per flag, each with the completion its flag calls for. */
    ghost predicate ListenersValid()
      reads this`onResponseNotification
    {
      UniqueFlags(onResponseNotification) && WellTyped(onResponseNotification)
    }

    ghost predicate Valid()
      reads this`conversationList, this`onResponseNotification, this`chattingConversation
    {
      RegistryValid() && ListenersValid()
    }

    constructor ()
      ensures Valid()
      ensures conversationList == {} && onResponseNotification == {} && chattingConversation == None && log == []
    {
      conversationList := {};
      onResponseNotification := {};
      chattingConversation := None;
      log := [];
    }

    /** `holdChat(with:id:)`: find or create, and hold the result (nil included); the previous one is not freed. */
    method HoldChat(kind: ConversationType, id: string, built: Option<Conversation>) returns (r: Option<Conversation>)
      requires Valid() && BuiltFor(built, kind, id)
      modifies this
      ensures Valid()
      ensures Resolved(r, conversationList) == Resolve(old(conversationList), kind, id, built)
      ensures chattingConversation == r
      ensures onResponseNotification == old(onResponseNotification) && log == old(log)
    {
      r := ConversationWith(kind, id, built);
      chattingConversation := r;
    }

    /** `waiveChat()`: free the held conversation, if any, and hold nothing. */
    method WaiveChat()
      requires Valid()
      modifies this
      ensures Valid()
      ensures chattingConversation == None
      ensures log == old(log) + (if old(chattingConversation).Some? then [Freed(old(chattingConversation).value)] else [])
      ensures conversationList == old(conversationList) && onResponseNotification == old(onResponseNotification)
    {
      if chattingConversation.Some? {
        log := log + [Freed(chattingConversation.value)];
      }
      chattingConversation := None;
    }

    /** `conversation(with:id:)`: the registered conversation, else the newly built one inserted, else nil. */
    method ConversationWith(kind: ConversationType, id: string, built: Option<Conversation>) returns (r: Option<Conversation>)
      requires Valid() && BuiltFor(built, kind, id)
      modifies this
      ensures Valid()
      ensures Resolved(r, conversationList) == Resolve(old(conversationList), kind, id, built)
      ensures onResponseNotification == old(onResponseNotification) && chattingConversation == old(chattingConversation)
      ensures log == old(log)
    {
      if c :| c in conversationList && Matches(c, kind, id) {
        return Some(c);
      }
      if built.Some? {
        conversationList := conversationList + {built.value};
        return built;
      }
      return None;
    }

    /** `removeListenter(type:)`: drop the entry with that flag, if there is one. */
    method RemoveListenter(flag: TypeFlag)
      requires Valid()
      modifies this
      ensures Valid()
      ensures onResponseNotification == RemoveEntry(old(onResponseNotification), flag)
      ensures conversationList == old(conversationList) && chattingConversation == old(chattingConversation)
      ensures log == old(log)
    {
      if l :| l in onResponseNotification && l.flag == flag {
        assert forall k :: k in onResponseNotification && k.flag == flag ==> k == l;
        onResponseNotification := onResponseNotification - {l};
      }
    }

    /** `deleteConversation(with:id:)`: asks the SDK to delete; no in-memory state changes. */
    method DeleteConversation(kind: ConversationType, id: string)
      requires Valid()
      modifies this
      ensures Valid()
      ensures log == old(log) + [SdkDelete(kind, id)]
      ensures conversationList == old(conversationList) && onResponseNotification == old(onResponseNotification)
      ensures chattingConversation == old(chattingConversation)
    {
      log := log + [SdkDelete(kind, id)];
    }

    /** `listenterMessages(completion:)`: subscribe to the SDK and register an outside-notification entry. */
    method ListenterMessages(handler: nat)
      requires Valid()
      modifies this
      ensures Valid()
      ensures onResponseNotification == InsertEntry(old(onResponseNotification), ListenerEntry(OutsideNotification, Forward(handler)))
      ensures log == old(log) + [SdkAdd]
      ensures conversationList == old(conversationList) && chattingConversation == old(chattingConversation)
    {
      log := log + [SdkAdd];
      var e := ListenerEntry(OutsideNotification, Forward(handler));
      if !(exists l :: l in onResponseNotification && l.flag == e.flag) {
        onResponseNotification := onResponseNotification + {e};
      }
    }

    /** `removeListenerMessage()`: unsubscribe from the SDK and drop the outside-notification entry. */
    method RemoveListenerMessage()
      requires Valid()
      modifies this
      ensures Valid()
      ensures onResponseNotification == RemoveEntry(old(onResponseNotification), OutsideNotification)
      ensures log == old(log) + [SdkRemove]
      ensures conversationList == old(conversationList) && chattingConversation == old(chattingConversation)
    {
      log := log + [SdkRemove];
      RemoveListenter(OutsideNotification);
    }

    /**
     * `listenerUnReadCount(with:id:completion:)`: find or create the
     * conversation and register an unread entry that reports its unread count
     * as it is now (0 without a conversation). `unread` is the count the SDK
     * reports for that conversation at the time of the call.
     */
    method ListenerUnReadCount(kind: ConversationType, id: string, handler: nat, built: Option<Conversation>, unread: nat)
      requires Valid() && BuiltFor(built, kind, id)
      modifies this
      ensures Valid()
      ensures var res := Resolve(old(conversationList), kind, id, built);
              conversationList == res.registry &&
              onResponseNotification == InsertEntry(old(onResponseNotification),
                                                    ListenerEntry(UnreadMessage, ReportUnread(handler, UnreadOrZero(res.conversation, unread))))
      ensures chattingConversation == old(chattingConversation) && log == old(log)
    {
      var wrapped := ConversationWith(kind, id, built);
      var unreadCount := if wrapped.Some? then unread else 0;
      var e := ListenerEntry(UnreadMessage, ReportUnread(handler, unreadCount));
      if !(exists l :: l in onResponseNotification && l.flag == e.flag) {
        onResponseNotification := onResponseNotification + {e};
      }
    }

    /** `removeListenerUnReadCount()`: drop the unread entry. */
    method RemoveListenerUnReadCount()
      requires Valid()
      modifies this
      ensures Valid()
      ensures onResponseNotification == RemoveEntry(old(onResponseNotification), UnreadMessage)
      ensures conversationList == old(conversationList) && chattingConversation == old(chattingConversation)
      ensures log == old(log)
    {
      RemoveListenter(UnreadMessage);
    }

    /**
     * `handlerNotification(with:)`: invoke every registered entry once with
     * the conversation's receiver id and last message, in set order.
     */
    method HandlerNotification(c: Conversation) returns (ghost sent: seq<Event>)
      modifies this`log
      ensures log == old(log) + sent
      ensures multiset(sent) == Fanout(onResponseNotification, c.receiverId, c.lastMessage)
    {
      var receiver, content := c.receiverId, c.lastMessage;
      var remaining := onResponseNotification;
      sent := [];
      ghost var total := Fanout(onResponseNotification, receiver, content);
      while remaining != {}
        invariant log == old(log) + sent
        invariant multiset(sent) + Fanout(remaining, receiver, content) == total
        decreases remaining
      {
        var l :| l in remaining;
        var e := Notification(l, receiver, content);
        FanoutStep(sent, remaining, l, onResponseNotification, receiver, content);
        assert (old(log) + sent) + [e] == old(log) + (sent + [e]);
        log := log + [e];
        sent := sent + [e];
        remaining := remaining - {l};
      }
    }

    /**
     * `onNewMessage(_:)`: handle the batch item by item; the first item that
     * is not an attributable `TIMMessage`, or that is for the held
     * conversation, ends the whole batch.
     */
    method OnNewMessage(batch: seq<Item>)
      requires Valid()
      modifies this
      ensures Valid()
      ensures onResponseNotification == old(onResponseNotification) && chattingConversation == old(chattingConversation)
      ensures conversationList == Run(old(conversationList), old(onResponseNotification), old(chattingConversation), batch).registry
      ensures |log| >= |old(log)| && log[..|old(log)|] == old(log)
      ensures Conforms(log[|old(log)|..], Run(old(conversationList), old(onResponseNotification), old(chattingConversation), batch).steps)
    {
      ghost var listeners, held := onResponseNotification, chattingConversation;
      ghost var done: seq<Step> := [];
      ghost var whole := Run(conversationList, listeners, held, batch);
      var i := 0;
      while i < |batch|
        invariant 0 <= i <= |batch|
        invariant Valid()
        invariant onResponseNotification == listeners && chattingConversation == held
        invariant |log| >= |old(log)| && log[..|old(log)|] == old(log)
        invariant Conforms(log[|old(log)|..], done)
        invariant whole == Then(done, Run(conversationList, listeners, held, batch[i..]))
      {
        ghost var o := StepItem(conversationList, listeners, held, batch[i]);
        RunFrom(conversationList, listeners, held, batch, i);
        ghost var before := log;
        var stop := HandleItem(batch[i]);
        ConformsExtend(log, |old(log)|, |before|, done, o.steps);
        if stop {
          done := done + o.steps;
          return;
        }
        ThenThen(done, o.steps, Run(o.registry, listeners, held, batch[i + 1..]));
        done := done + o.steps;
        i := i + 1;
      }
      assert batch[i..] == [];
      assert done + [] == done;
    }

    /**
     * One pass of the `for` loop of `onNewMessage(_:)`; `stop` says that the
     * pass reached one of the loop's `return` statements.
     */
    method HandleItem(item: Item) returns (stop: bool)
      requires Valid()
      modifies this`conversationList, this`log
      ensures Valid()
      ensures var o := StepItem(old(conversationList), onResponseNotification, chattingConversation, item);
              conversationList == o.registry && stop == o.stopped && Appended(old(log), log, o.steps)
    {
      if item.Foreign? || item.message.conversation.None? {
        AppendedBy(log, [], []);
        stop := true;
      } else if existing :| existing in conversationList && Same(existing, item.message.conversation.value) {
        stop := ReceiveKnown(existing, item.message);
      } else {
        ReceiveNew(item.message);
        stop := false;
      }
    }

    /**
     * A message for the registered conversation `existing`: call its receive
     * callback; then mark the message read if it is the held conversation
     * (and return), or notify the listeners if the message is not the
     * user's own.
     */
    method ReceiveKnown(existing: Conversation, message: Message) returns (stop: bool)
      requires UniqueKeys(conversationList)
      requires existing in conversationList && message.conversation.Some? && Same(existing, message.conversation.value)
      modifies this`log
      ensures var o := StepItem(conversationList, onResponseNotification, chattingConversation, Tim(message));
              stop == o.stopped && Appended(old(log), log, o.steps)
    {
      var conversation := message.conversation.value;
      KnownConversationStep(conversationList, onResponseNotification, chattingConversation, existing, message);
      ghost var before := log;
      var received := Received(existing, message);
      log := log + [received];
      if chattingConversation.Some? && Same(existing, chattingConversation.value) {
        var read := AlreadyRead(chattingConversation.value, message);
        log := log + [read];
        assert (before + [received]) + [read] == before + ([received] + [read]);
        assert [received] + [read] == [received, read];
        ConformsPair(received, read);
        AppendedBy(before, [received, read], [Do(received), Do(read)]);
        stop := true;
      } else if !message.fromSelf {
        ghost var sent := HandlerNotification(conversation);
        assert (before + [received]) + sent == before + ([received] + sent);
        ConformsDoFanOut(received, sent, Fanout(onResponseNotification, conversation.receiverId, conversation.lastMessage));
        AppendedBy(before, [received] + sent,
                   [Do(received), FanOut(Fanout(onResponseNotification, conversation.receiverId, conversation.lastMessage))]);
        stop := false;
      } else {
        ConformsDo(received);
        AppendedBy(before, [received], [Do(received)]);
        stop := false;
      }
    }

    /** A message for an unregistered conversation: insert it, then notify the listeners. */
    method ReceiveNew(message: Message)
      requires RegistryValid()
      requires message.conversation.Some?
      requires !Known(conversationList, message.conversation.value.kind, message.conversation.value.receiverId)
      modifies this`conversationList, this`log
      ensures RegistryValid()
      ensures var o := StepItem(old(conversationList), onResponseNotification, chattingConversation, Tim(message));
              conversationList == o.registry && !o.stopped && Appended(old(log), log, o.steps)
    {
      var conversation := message.conversation.value;
      UnknownConversationStep(conversationList, onResponseNotification, chattingConversation, message);
      conversationList := conversationList + {conversation};
      ghost var sent := HandlerNotification(conversation);
      ConformsFanOut(sent, Fanout(onResponseNotification, conversation.receiverId, conversation.lastMessage));
      AppendedBy(old(log), sent, [FanOut(Fanout(onResponseNotification, conversation.receiverId, conversation.lastMessage))]);
    }
  }
}
