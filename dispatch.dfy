/**
 * `onNewMessage`: how one batch of incoming items changes the registry and
 * which side effects it has, item by item, stopping at the first `return`.
 */
module Dispatch {
  import opened Wrappers
  import opened Conversations
  import opened Listeners
  import opened Events

  /** One element of the batch: a `TIMMessage`, or some other object. */
  datatype Item = Foreign | Tim(message: Message)

  /** The guard of `onNewMessage`: not a `TIMMessage`, or one without a conversation. */
  predicate Unattributable(item: Item)
  {
    item.Foreign? || item.message.conversation.None?
  }

  /** `didExistingConversation == chattingConversation` (false when nothing is held). */
  predicate IsChatting(chatting: Option<Conversation>, c: Conversation)
  {
    chatting.Some? && Same(c, chatting.value)
  }

  /** The registry after some items, the steps they performed and whether a `return` ended the batch. */
  datatype Outcome = Outcome(registry: set<Conversation>, steps: seq<Step>, stopped: bool)

  /** Steps `done` followed by the outcome `o`. */
  function Then(done: seq<Step>, o: Outcome): Outcome
  {
    Outcome(o.registry, done + o.steps, o.stopped)
  }

  ghost predicate NoFanOut(steps: seq<Step>)
  {
    forall i :: 0 <= i < |steps| ==> !steps[i].FanOut?
  }

  /** The body of the `for` loop of `onNewMessage` for one item. */
  ghost function StepItem(convs: set<Conversation>, ls: set<ListenerEntry>, chatting: Option<Conversation>, item: Item): (o: Outcome)
    ensures convs <= o.registry
    ensures UniqueKeys(convs) ==> UniqueKeys(o.registry)
    ensures o.registry != convs ==> !Unattributable(item) && o.registry == convs + {item.message.conversation.value}
  {
    if Unattributable(item) then Outcome(convs, [], true)
    else
      var m := item.message;
      var c := m.conversation.value;
      var notify := FanOut(Fanout(ls, c.receiverId, c.lastMessage));
      match Lookup(convs, c.kind, c.receiverId)
      case Some(e) =>
        if IsChatting(chatting, e) then
          Outcome(convs, [Do(Received(e, m)), Do(AlreadyRead(chatting.value, m))], true)
        else if !m.fromSelf then
          Outcome(convs, [Do(Received(e, m)), notify], false)
        else
          Outcome(convs, [Do(Received(e, m))], false)
      case None =>
        Outcome(InsertConversation(convs, c), [notify], false)
  }

  /** `onNewMessage(batch)`: the items in order, up to and including the first that returns. */
  ghost function Run(convs: set<Conversation>, ls: set<ListenerEntry>, chatting: Option<Conversation>, batch: seq<Item>): (o: Outcome)
    ensures convs <= o.registry
    ensures UniqueKeys(convs) ==> UniqueKeys(o.registry)
    decreases |batch|
  {
    if batch == [] then Outcome(convs, [], false)
    else
      var o := StepItem(convs, ls, chatting, batch[0]);
      if o.stopped then o else Then(o.steps, Run(o.registry, ls, chatting, batch[1..]))
  }

  /** The batch from item `i` on: item `i`, and then the rest unless it returned. */
  lemma RunFrom(convs: set<Conversation>, ls: set<ListenerEntry>, chatting: Option<Conversation>, batch: seq<Item>, i: nat)
    requires i < |batch|
    ensures var o := StepItem(convs, ls, chatting, batch[i]);
            Run(convs, ls, chatting, batch[i..])
            == if o.stopped then o else Then(o.steps, Run(o.registry, ls, chatting, batch[i + 1..]))
  {
    assert batch[i..][0] == batch[i] && batch[i..][1..] == batch[i + 1..];
  }

  lemma ThenThen(a: seq<Step>, b: seq<Step>, o: Outcome)
    ensures Then(a, Then(b, o)) == Then(a + b, o)
  {
    assert a + (b + o.steps) == (a + b) + o.steps;
  }

  /** A batch split in two: the second part runs on the first part's registry, unless the first part returned. */
  lemma {:induction false} RunConcat(convs: set<Conversation>, ls: set<ListenerEntry>, chatting: Option<Conversation>,
                                     a: seq<Item>, b: seq<Item>)
    ensures var ra := Run(convs, ls, chatting, a);
            Run(convs, ls, chatting, a + b) == if ra.stopped then ra else Then(ra.steps, Run(ra.registry, ls, chatting, b))
    decreases |a|
  {
    if a == [] {
      assert a + b == b;
      var rb := Run(convs, ls, chatting, b);
      assert [] + rb.steps == rb.steps;
    } else {
      assert (a + b)[0] == a[0] && (a + b)[1..] == a[1..] + b;
      var o := StepItem(convs, ls, chatting, a[0]);
      if !o.stopped {
        RunConcat(o.registry, ls, chatting, a[1..], b);
        var ra := Run(o.registry, ls, chatting, a[1..]);
        if !ra.stopped {
          var rb := Run(ra.registry, ls, chatting, b);
          assert o.steps + (ra.steps + rb.steps) == (o.steps + ra.steps) + rb.steps;
        }
      }
    }
  }

  /**
   * An item that is not a `TIMMessage`, or has no conversation, ends the
   * whole batch: what the items before it did stands and the items after it
   * are ignored.
   */
  lemma UnattributableEndsBatch(convs: set<Conversation>, ls: set<ListenerEntry>, chatting: Option<Conversation>,
                                before: seq<Item>, bad: Item, after: seq<Item>)
    requires Unattributable(bad)
    ensures var r := Run(convs, ls, chatting, before + [bad] + after);
            var p := Run(convs, ls, chatting, before);
            r.registry == p.registry && r.steps == p.steps && r.stopped
  {
    RunConcat(convs, ls, chatting, before + [bad], after);
    RunConcat(convs, ls, chatting, before, [bad]);
    var p := Run(convs, ls, chatting, before);
    if !p.stopped {
      assert [bad][1..] == [];
      assert p.steps + [] == p.steps;
    }
  }

  /** How one message for a registered conversation is handled, depending on whether it is the held one. */
  lemma KnownConversationStep(convs: set<Conversation>, ls: set<ListenerEntry>, chatting: Option<Conversation>,
                              existing: Conversation, m: Message)
    requires UniqueKeys(convs) && existing in convs
    requires m.conversation.Some? && Same(m.conversation.value, existing)
    ensures var c := m.conversation.value;
            StepItem(convs, ls, chatting, Tim(m))
            == if IsChatting(chatting, existing) then
                 Outcome(convs, [Do(Received(existing, m)), Do(AlreadyRead(chatting.value, m))], true)
               else
                 Outcome(convs, [Do(Received(existing, m))] + (if m.fromSelf then [] else [FanOut(Fanout(ls, c.receiverId, c.lastMessage))]), false)
  {
    var c := m.conversation.value;
    assert Matches(existing, c.kind, c.receiverId);
  }

  /**
   * A message for the held conversation calls its receive callback, marks
   * the message read once, notifies no listener and ends the batch.
   */
  lemma ActiveConversationIsMarkedRead(convs: set<Conversation>, ls: set<ListenerEntry>, held: Conversation,
                                       m: Message, rest: seq<Item>)
    requires UniqueKeys(convs) && held in convs
    requires m.conversation.Some? && Same(m.conversation.value, held)
    ensures Run(convs, ls, Some(held), [Tim(m)] + rest)
         == Outcome(convs, [Do(Received(held, m)), Do(AlreadyRead(held, m))], true)
    ensures NoFanOut(Run(convs, ls, Some(held), [Tim(m)] + rest).steps)
  {
    KnownConversationStep(convs, ls, Some(held), held, m);
    assert ([Tim(m)] + rest)[0] == Tim(m);
  }

  /**
   * A message for a registered conversation that is not the held one calls
   * its receive callback and then notifies every listener exactly when the
   * message is not the user's own; the registry is unchanged and the batch
   * goes on.
   */
  lemma KnownConversationNotifiesUnlessSelf(convs: set<Conversation>, ls: set<ListenerEntry>, chatting: Option<Conversation>,
                                            existing: Conversation, m: Message)
    requires UniqueKeys(convs) && existing in convs
    requires m.conversation.Some? && Same(m.conversation.value, existing)
    requires !IsChatting(chatting, existing)
    ensures var o := StepItem(convs, ls, chatting, Tim(m));
            o.registry == convs && !o.stopped && o.steps[0] == Do(Received(existing, m))
    ensures NoFanOut(StepItem(convs, ls, chatting, Tim(m)).steps) <==> m.fromSelf
  {
    KnownConversationStep(convs, ls, chatting, existing, m);
    var o := StepItem(convs, ls, chatting, Tim(m));
    if !m.fromSelf {
      assert o.steps[1].FanOut?;
    }
  }

  /** How one message for an unregistered conversation is handled. */
  lemma UnknownConversationStep(convs: set<Conversation>, ls: set<ListenerEntry>, chatting: Option<Conversation>, m: Message)
    requires m.conversation.Some? && !Known(convs, m.conversation.value.kind, m.conversation.value.receiverId)
    ensures var c := m.conversation.value;
            StepItem(convs, ls, chatting, Tim(m))
            == Outcome(convs + {c}, [FanOut(Fanout(ls, c.receiverId, c.lastMessage))], false)
  {
  }

  /**
   * A message for an unregistered conversation registers it (one new
   * element) and notifies listeners whether or not it is the user's own:
   * each registered entry once, with the conversation's receiver id and
   * last message.
   */
  lemma UnknownConversationIsInserted(convs: set<Conversation>, ls: set<ListenerEntry>, chatting: Option<Conversation>,
                                      m: Message)
    requires UniqueFlags(ls)
    requires m.conversation.Some? && !Known(convs, m.conversation.value.kind, m.conversation.value.receiverId)
    ensures var c := m.conversation.value;
            var o := StepItem(convs, ls, chatting, Tim(m));
            o.registry == convs + {c} && |o.registry| == |convs| + 1 && !o.stopped &&
            o.steps == [FanOut(Fanout(ls, c.receiverId, c.lastMessage))]
    ensures var c := m.conversation.value;
            |Fanout(ls, c.receiverId, c.lastMessage)| == |ls| &&
            forall l :: l in ls ==> Fanout(ls, c.receiverId, c.lastMessage)[Notification(l, c.receiverId, c.lastMessage)] == 1
  {
    var c := m.conversation.value;
    UnknownConversationStep(convs, ls, chatting, m);
    FanoutSize(ls, c.receiverId, c.lastMessage);
    forall l | l in ls
      ensures Fanout(ls, c.receiverId, c.lastMessage)[Notification(l, c.receiverId, c.lastMessage)] == 1
    {
      FanoutOnce(ls, l, c.receiverId, c.lastMessage);
    }
  }
}
