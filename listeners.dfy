/**
 * The listener set `onResponseNotification` of `CentralManager` and the
 * struct `ListenterMessages` it holds, whose equality and hash look at the
 * flag alone.
 */
module Listeners {
  import opened Wrappers

  /** `ListenterMessages.TypeFlag`. */
  datatype TypeFlag = UnreadMessage | OutsideNotification

  /**
   * The completion a listener entry carries. `Forward` is a caller's
   * `NotificationCompletion` registered by `listenterMessages`; `ReportUnread`
   * is the closure built by `listenerUnReadCount`, which hands the caller's
   * `CountCompletion` the unread count captured at registration. Handlers are
   * identified by an opaque number.
   */
  datatype Completion = Forward(handler: nat) | ReportUnread(handler: nat, captured: nat)

  /** `ListenterMessages(flag:completion:)`. */
  datatype ListenerEntry = ListenerEntry(flag: TypeFlag, completion: Completion)

  /** What a caller's handler receives when an entry's completion is invoked. */
  datatype Delivery =
    | Forwarded(handler: nat, receiver: string, content: Option<string>)
    | UnreadCount(handler: nat, count: nat)

  /** Invoking an entry's completion with `(receiverID, content)`. */
  function Call(c: Completion, receiver: string, content: Option<string>): Delivery
  {
    match c
    case Forward(h) => Forwarded(h, receiver, content)
    case ReportUnread(h, n) => UnreadCount(h, n)
  }

  /** `ListenterMessages.==`: entries are equal when their flags are. */
  predicate SameEntry(a: ListenerEntry, b: ListenerEntry)
  {
    a.flag == b.flag
  }

  /** Under flag-only equality a set holds at most one entry per flag. */
  ghost predicate UniqueFlags(ls: set<ListenerEntry>)
  {
    forall a, b :: a in ls && b in ls && SameEntry(a, b) ==> a == b
  }

  /** Every unread-count entry carries a captured count and every other entry forwards. */
  ghost predicate WellTyped(ls: set<ListenerEntry>)
  {
    forall l :: l in ls ==> (l.flag == UnreadMessage <==> l.completion.ReportUnread?)
  }

  ghost predicate Registered(ls: set<ListenerEntry>, flag: TypeFlag)
  {
    exists l :: l in ls && l.flag == flag
  }

  /**
   * `Set<ListenterMessages>.insert`: when an entry with the same flag is
   * present it stays and the new one is dropped, so the first registration
   * wins.
   */
  ghost function InsertEntry(ls: set<ListenerEntry>, e: ListenerEntry): (r: set<ListenerEntry>)
    ensures Registered(ls, e.flag) ==> r == ls
    ensures !Registered(ls, e.flag) ==> r == ls + {e}
    ensures UniqueFlags(ls) ==> UniqueFlags(r)
    ensures WellTyped(ls) && (e.flag == UnreadMessage <==> e.completion.ReportUnread?) ==> WellTyped(r)
    ensures Registered(r, e.flag)
  {
    if Registered(ls, e.flag) then ls else ls + {e}
  }

  /**
   * `removeListenter(type:)`: find the entry with that flag and remove it;
   * without one, nothing changes. Clearing the completion of the found entry
   * first acts on a copy of the struct, so it leaves the set as it is.
   */
  ghost function RemoveEntry(ls: set<ListenerEntry>, flag: TypeFlag): (r: set<ListenerEntry>)
    ensures r <= ls
    ensures UniqueFlags(ls) ==> !Registered(r, flag)
    ensures forall l :: l in ls && l.flag != flag ==> l in r
    ensures !Registered(ls, flag) ==> r == ls
    ensures UniqueFlags(ls) ==> UniqueFlags(r)
    ensures WellTyped(ls) ==> WellTyped(r)
  {
    if Registered(ls, flag) then
      var l :| l in ls && l.flag == flag; ls - {l}
    else
      ls
  }

  /** Registering the same flag twice keeps the first entry and drops the second. */
  lemma RegisterTwiceKeepsFirst(ls: set<ListenerEntry>, first: ListenerEntry, second: ListenerEntry)
    requires !Registered(ls, first.flag) && second.flag == first.flag
    ensures InsertEntry(InsertEntry(ls, first), second) == ls + {first}
    ensures first != second ==> second !in InsertEntry(InsertEntry(ls, first), second)
  {
    assert Registered(ls + {first}, first.flag) by { assert first in ls + {first}; }
  }

  /** The entries with one flag: at most one of them in a set with unique flags. */
  lemma AtMostOnePerFlag(ls: set<ListenerEntry>, flag: TypeFlag)
    requires UniqueFlags(ls)
    ensures |set l | l in ls && l.flag == flag| <= 1
  {
    var part := set l | l in ls && l.flag == flag;
    if part != {} {
      var x :| x in part;
      assert part == {x};
    }
  }

  /** With two flags, the listener set never holds more than two entries. */
  lemma AtMostTwoEntries(ls: set<ListenerEntry>)
    requires UniqueFlags(ls)
    ensures |ls| <= 2
  {
    var unread := set l | l in ls && l.flag == UnreadMessage;
    var outside := set l | l in ls && l.flag == OutsideNotification;
    assert ls == unread + outside;
    AtMostOnePerFlag(ls, UnreadMessage);
    AtMostOnePerFlag(ls, OutsideNotification);
  }
}
