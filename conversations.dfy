/**
 * The conversation registry of `CentralManager`: the set `conversationList`
 * and the find-or-create lookup `conversation(with:id:)`.
 */
module Conversations {
  import opened Wrappers

  /** `TIMConversationType`: peer-to-peer, group or system conversation. */
  datatype ConversationType = C2C | Group | System

  /**
   * The `Conversation` wrapper as far as the manager sees it: its identity
   * (kind, receiver id) and the last message text `getLastMessage` gave when
   * the wrapper was built.
   */
  datatype Conversation = Conversation(
    kind: ConversationType,
    receiverId: string,
    lastMessage: Option<string>)

  /** An incoming `TIMMessage`: `conversation` is the wrapper built from `getConversation()`, `None` when that is nil. */
  datatype Message = Message(id: nat, conversation: Option<Conversation>, fromSelf: bool)

  /** The lookup predicate of `conversation(with:id:)`: same receiver id and same type. */
  predicate Matches(c: Conversation, kind: ConversationType, id: string)
  {
    c.receiverId == id && c.kind == kind
  }

  /** Conversation equality: identity by (kind, receiver id), not by the SDK state. */
  predicate Same(a: Conversation, b: Conversation)
  {
    Matches(a, b.kind, b.receiverId)
  }

  /** The registry holds at most one conversation per (kind, receiver id). */
  ghost predicate UniqueKeys(s: set<Conversation>)
  {
    forall a, b :: a in s && b in s && Same(a, b) ==> a == b
  }

  ghost predicate Known(s: set<Conversation>, kind: ConversationType, id: string)
  {
    exists c :: c in s && Matches(c, kind, id)
  }

  /** `conversationList.first(where:)` for the given identity. */
  ghost function Lookup(s: set<Conversation>, kind: ConversationType, id: string): (r: Option<Conversation>)
    ensures r.Some? <==> Known(s, kind, id)
    ensures r.Some? ==> r.value in s && Matches(r.value, kind, id)
    ensures UniqueKeys(s) ==> forall c :: c in s && Matches(c, kind, id) ==> r == Some(c)
  {
    if Known(s, kind, id) then
      var c :| c in s && Matches(c, kind, id); Some(c)
    else
      None
  }

  /**
   * `Set<Conversation>.insert`: an element equal to `c` that is already
   * present stays, and `c` is then dropped.
   */
  ghost function InsertConversation(s: set<Conversation>, c: Conversation): (r: set<Conversation>)
    ensures s <= r && r - s <= {c}
    ensures Known(r, c.kind, c.receiverId)
    ensures c in r <==> c in s || !Known(s, c.kind, c.receiverId)
    ensures UniqueKeys(s) ==> UniqueKeys(r)
  {
    if Known(s, c.kind, c.receiverId) then s else s + {c}
  }

  /**
   * The outcome of the failable initialiser `Conversation(type:id:)`: `None`
   * when construction fails, otherwise a conversation with that identity.
   */
  predicate BuiltFor(built: Option<Conversation>, kind: ConversationType, id: string)
  {
    built.Some? ==> Matches(built.value, kind, id)
  }

  /** What `conversation(with:id:)` returns, with the registry it leaves behind. */
  datatype Resolved = Resolved(conversation: Option<Conversation>, registry: set<Conversation>)

  /**
   * `conversation(with:id:)`: the registered conversation with that identity;
   * otherwise the newly built one, inserted; otherwise nil.
   */
  ghost function Resolve(s: set<Conversation>, kind: ConversationType, id: string, built: Option<Conversation>): (r: Resolved)
    requires BuiltFor(built, kind, id)
    ensures s <= r.registry
    ensures r.registry - s <= (if built.Some? then {built.value} else {})
    ensures UniqueKeys(s) ==> UniqueKeys(r.registry)
    ensures r.conversation.Some? ==> r.conversation.value in r.registry && Matches(r.conversation.value, kind, id)
    ensures r.conversation.None? <==> !Known(s, kind, id) && built.None?
    ensures r.conversation.None? ==> r.registry == s
    ensures UniqueKeys(s) ==> forall c :: c in s && Matches(c, kind, id) ==> r == Resolved(Some(c), s)
    ensures !Known(s, kind, id) && built.Some? ==> r == Resolved(built, s + {built.value})
  {
    match Lookup(s, kind, id)
    case Some(c) => Resolved(Some(c), s)
    case None =>
      if built.Some? then Resolved(built, InsertConversation(s, built.value)) else Resolved(None, s)
  }

  /**
   * The unread count a caller of `listenerUnReadCount` captures: `unread`,
   * what the SDK reports for the conversation at that moment, or 0 when there
   * is no conversation.
   */
  function UnreadOrZero(c: Option<Conversation>, unread: nat): nat
  {
    if c.Some? then unread else 0
  }

  /**
   * Find-or-create is stable: once a call has returned a conversation, a
   * second call with the same identity returns that same conversation and
   * leaves the registry alone, whatever construction would now give.
   */
  lemma ResolveIsStable(s: set<Conversation>, kind: ConversationType, id: string,
                        first: Option<Conversation>, second: Option<Conversation>)
    requires UniqueKeys(s) && BuiltFor(first, kind, id) && BuiltFor(second, kind, id)
    requires Resolve(s, kind, id, first).conversation.Some?
    ensures var r := Resolve(s, kind, id, first);
            Resolve(r.registry, kind, id, second) == r
  {
    var r := Resolve(s, kind, id, first);
    assert r.conversation.value in r.registry && Matches(r.conversation.value, kind, id);
  }
}
