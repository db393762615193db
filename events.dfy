/**
 * The side effects `CentralManager` has on conversations, listeners and the
 * SDK, recorded as events, and the fan-out of `handlerNotification`, whose
 * order follows the unspecified iteration order of a Swift `Set`.
 */
module Events {
  import opened Wrappers
  import opened Conversations
  import opened Listeners

  datatype Event =
    | Freed(conversation: Conversation)                          // `Conversation.free()`
    | Received(conversation: Conversation, message: Message)     // `onReceiveMessageCompletion?(message)`
    | AlreadyRead(conversation: Conversation, message: Message)  // `alreadyRead(message:)`
    | Notify(flag: TypeFlag, delivery: Delivery)                 // one listener completion invoked
    | SdkAdd                                                     // `TIMManager.add(self)`
    | SdkRemove                                                  // `TIMManager.remove(self)`
    | SdkDelete(kind: ConversationType, receiverId: string)      // `deleteConversationAndMessages`

  /** Invoking one listener entry with `(receiver, content)`. */
  function Notification(l: ListenerEntry, receiver: string, content: Option<string>): Event
  {
    Notify(l.flag, Call(l.completion, receiver, content))
  }

  /** The invocations of `handlerNotification`: one per entry of the listener set, in no particular order. */
  ghost function Fanout(ls: set<ListenerEntry>, receiver: string, content: Option<string>): multiset<Event>
    decreases ls
  {
    if ls == {} then multiset{}
    else
      var l :| l in ls;
      multiset{Notification(l, receiver, content)} + Fanout(ls - {l}, receiver, content)
  }

  /** The fan-out does not depend on which entry is visited first. */
  lemma {:induction false} FanoutPick(ls: set<ListenerEntry>, x: ListenerEntry, receiver: string, content: Option<string>)
    requires x in ls
    ensures Fanout(ls, receiver, content) == multiset{Notification(x, receiver, content)} + Fanout(ls - {x}, receiver, content)
    decreases ls
  {
    var y :| y in ls && Fanout(ls, receiver, content) == multiset{Notification(y, receiver, content)} + Fanout(ls - {y}, receiver, content);
    if y != x {
      FanoutPick(ls - {y}, x, receiver, content);
      FanoutPick(ls - {x}, y, receiver, content);
      assert ls - {y} - {x} == ls - {x} - {y};
    }
  }

  /** One invocation per registered entry. */
  lemma {:induction false} FanoutSize(ls: set<ListenerEntry>, receiver: string, content: Option<string>)
    ensures |Fanout(ls, receiver, content)| == |ls|
    decreases ls
  {
    if ls != {} {
      var x :| x in ls;
      FanoutPick(ls, x, receiver, content);
      FanoutSize(ls - {x}, receiver, content);
    }
  }

  /** Every registered entry is invoked. */
  lemma FanoutContains(ls: set<ListenerEntry>, l: ListenerEntry, receiver: string, content: Option<string>)
    requires l in ls
    ensures Notification(l, receiver, content) in Fanout(ls, receiver, content)
  {
    FanoutPick(ls, l, receiver, content);
  }

  /** Every invocation of the fan-out is that of a registered entry, with the same receiver and content. */
  lemma {:induction false} FanoutOnly(ls: set<ListenerEntry>, receiver: string, content: Option<string>, e: Event)
    returns (l: ListenerEntry)
    requires e in Fanout(ls, receiver, content)
    ensures l in ls && e == Notification(l, receiver, content)
    decreases ls
  {
    var x :| x in ls;
    FanoutPick(ls, x, receiver, content);
    if e == Notification(x, receiver, content) {
      l := x;
    } else {
      l := FanoutOnly(ls - {x}, receiver, content, e);
    }
  }

  /** Exactly the registered entries are invoked. */
  lemma FanoutMembers(ls: set<ListenerEntry>, receiver: string, content: Option<string>, e: Event)
    ensures e in Fanout(ls, receiver, content) <==> exists l :: l in ls && e == Notification(l, receiver, content)
  {
    if e in Fanout(ls, receiver, content) {
      var l := FanoutOnly(ls, receiver, content, e);
    }
    if l :| l in ls && e == Notification(l, receiver, content) {
      FanoutContains(ls, l, receiver, content);
    }
  }

  /** In a set with unique flags, every entry is invoked exactly once. */
  lemma FanoutOnce(ls: set<ListenerEntry>, l: ListenerEntry, receiver: string, content: Option<string>)
    requires UniqueFlags(ls) && l in ls
    ensures Fanout(ls, receiver, content)[Notification(l, receiver, content)] == 1
  {
    var e := Notification(l, receiver, content);
    FanoutPick(ls, l, receiver, content);
    if e in Fanout(ls - {l}, receiver, content) {
      var k := FanoutOnly(ls - {l}, receiver, content, e);
      assert SameEntry(k, l);
    }
  }

  /**
   * An unread-count entry reports the count it captured at registration,
   * whatever receiver and content the fan-out is for.
   */
  lemma FanoutReportsCapturedCount(ls: set<ListenerEntry>, handler: nat, count: nat,
                                   receiver: string, content: Option<string>, e: Event)
    requires UniqueFlags(ls) && ListenerEntry(UnreadMessage, ReportUnread(handler, count)) in ls
    requires e in Fanout(ls, receiver, content) && e.Notify? && e.flag == UnreadMessage
    ensures e.delivery == UnreadCount(handler, count)
  {
    var l := FanoutOnly(ls, receiver, content, e);
    assert SameEntry(l, ListenerEntry(UnreadMessage, ReportUnread(handler, count)));
  }

  /**
   * With well-typed entries, an unread-count invocation delivers a count and
   * an outside-notification invocation forwards the receiver id and content
   * it was given.
   */
  lemma FanoutDeliveries(ls: set<ListenerEntry>, receiver: string, content: Option<string>, e: Event)
    requires WellTyped(ls) && e in Fanout(ls, receiver, content)
    ensures e.Notify?
    ensures e.flag == UnreadMessage <==> e.delivery.UnreadCount?
    ensures e.flag == OutsideNotification ==> e.delivery.receiver == receiver && e.delivery.content == content
  {
    var l := FanoutOnly(ls, receiver, content, e);
  }

  /** Invoking one more entry moves it from the entries still to visit to the invocations made. */
  lemma FanoutStep(sent: seq<Event>, remaining: set<ListenerEntry>, l: ListenerEntry, all: set<ListenerEntry>,
                   receiver: string, content: Option<string>)
    requires l in remaining
    requires multiset(sent) + Fanout(remaining, receiver, content) == Fanout(all, receiver, content)
    ensures multiset(sent + [Notification(l, receiver, content)]) + Fanout(remaining - {l}, receiver, content)
         == Fanout(all, receiver, content)
  {
    FanoutPick(remaining, l, receiver, content);
    assert multiset(sent + [Notification(l, receiver, content)]) == multiset(sent) + multiset{Notification(l, receiver, content)};
  }

  /** One step of a trace: a single event, or a fan-out whose events come in any order. */
  datatype Step = Do(event: Event) | FanOut(bag: multiset<Event>)

  /** The log `log` is the steps `steps` performed one after the other. */
  ghost predicate Conforms(log: seq<Event>, steps: seq<Step>)
    decreases steps
  {
    if steps == [] then log == []
    else match steps[0]
      case Do(e) => |log| > 0 && log[0] == e && Conforms(log[1..], steps[1..])
      case FanOut(bag) => |bag| <= |log| && multiset(log[..|bag|]) == bag && Conforms(log[|bag|..], steps[1..])
  }

  /** The log went from `before` to `after` by performing `steps`. */
  ghost predicate Appended(before: seq<Event>, after: seq<Event>, steps: seq<Step>)
  {
    |before| <= |after| && after[..|before|] == before && Conforms(after[|before|..], steps)
  }

  /** Appending events that perform `steps` to a log. */
  lemma AppendedBy(before: seq<Event>, added: seq<Event>, steps: seq<Step>)
    requires Conforms(added, steps)
    ensures Appended(before, before + added, steps)
  {
    assert (before + added)[..|before|] == before;
    assert (before + added)[|before|..] == added;
  }

  /** Logs of consecutive traces concatenate. */
  lemma {:induction false} ConformsAppend(a: seq<Event>, s: seq<Step>, b: seq<Event>, t: seq<Step>)
    requires Conforms(a, s) && Conforms(b, t)
    ensures Conforms(a + b, s + t)
    decreases s
  {
    if s == [] {
      assert a + b == b && s + t == t;
    } else {
      assert (s + t)[0] == s[0] && (s + t)[1..] == s[1..] + t;
      match s[0]
      case Do(e) =>
        assert (a + b)[1..] == a[1..] + b;
        ConformsAppend(a[1..], s[1..], b, t);
      case FanOut(bag) =>
        assert (a + b)[..|bag|] == a[..|bag|];
        assert (a + b)[|bag|..] == a[|bag|..] + b;
        ConformsAppend(a[|bag|..], s[1..], b, t);
    }
  }

  /** A run of events is one fan-out step exactly when it holds that bag of events. */
  lemma ConformsFanOut(log: seq<Event>, bag: multiset<Event>)
    ensures Conforms(log, [FanOut(bag)]) <==> multiset(log) == bag
  {
    assert log[..|log|] == log;
    assert [FanOut(bag)][1..] == [];
  }

  /** A single event is one step. */
  lemma ConformsDo(e: Event)
    ensures Conforms([e], [Do(e)])
  {
    assert [Do(e)][1..] == [];
  }

  /** Two single events are two steps. */
  lemma ConformsPair(first: Event, second: Event)
    ensures Conforms([first, second], [Do(first), Do(second)])
  {
    ConformsDo(second);
    assert [first, second][1..] == [second];
    assert [Do(first), Do(second)][1..] == [Do(second)];
  }

  /** A single event followed by a fan-out. */
  lemma ConformsDoFanOut(e: Event, rest: seq<Event>, bag: multiset<Event>)
    requires multiset(rest) == bag
    ensures Conforms([e] + rest, [Do(e), FanOut(bag)])
  {
    ConformsFanOut(rest, bag);
    assert ([e] + rest)[1..] == rest;
    assert [Do(e), FanOut(bag)][1..] == [FanOut(bag)];
  }

  /** The events logged since `mark` perform `steps`, so the log since `start` performs `done + steps`. */
  lemma ConformsExtend(log: seq<Event>, start: nat, mark: nat, done: seq<Step>, steps: seq<Step>)
    requires start <= mark <= |log|
    requires Conforms(log[start..mark], done) && Conforms(log[mark..], steps)
    ensures Conforms(log[start..], done + steps)
  {
    ConformsAppend(log[start..mark], done, log[mark..], steps);
    assert log[start..mark] + log[mark..] == log[start..];
  }
}
