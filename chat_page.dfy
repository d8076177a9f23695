/**
 * The messaging page: the partner list (the same derivation as the
 * relationship page's friend list), the unread counters, the open
 * conversation, marking it read, sending, and the sidebar search.
 */
module ChatPage {
  import opened Collections
  import opened Sorting
  import opened Text
  import opened Types
  import opened Storage
  import opened FriendsPage

  /** A message to `me` that is not read; an absent flag counts as not read. */
  predicate UnreadFor(m: Message, me: string) {
    m.receiver == me && !m.read
  }

  /** The number of unread messages from `s` to `me`. */
  function UnreadFrom(msgs: seq<Message>, me: string, s: string): (n: nat)
    ensures n <= |msgs|
  {
    if msgs == [] then 0
    else
      var m := msgs[|msgs| - 1];
      UnreadFrom(msgs[..|msgs| - 1], me, s) + (if UnreadFor(m, me) && m.sender == s then 1 else 0)
  }

  /** A sender has a counter exactly when some stored message from them to `me` is unread. */
  lemma {:induction false} UnreadFromPositive(msgs: seq<Message>, me: string, s: string)
    ensures UnreadFrom(msgs, me, s) > 0 <==> exists m :: m in msgs && UnreadFor(m, me) && m.sender == s
  {
    if msgs != [] {
      var init := msgs[..|msgs| - 1];
      UnreadFromPositive(init, me, s);
      assert msgs == init + [msgs[|msgs| - 1]];
    }
  }

  /**
   * The unread counters: a key for every sender with an unread message to
   * `me`, holding how many there are.
   */
  method UnreadCounts(msgs: seq<Message>, me: string) returns (counts: map<string, nat>)
    ensures forall s :: s in counts <==> UnreadFrom(msgs, me, s) > 0
    ensures forall s :: s in counts ==> counts[s] == UnreadFrom(msgs, me, s)
  {
    counts := map[];
    for i := 0 to |msgs|
      invariant forall s :: s in counts <==> UnreadFrom(msgs[..i], me, s) > 0
      invariant forall s :: s in counts ==> counts[s] == UnreadFrom(msgs[..i], me, s)
    {
      var m := msgs[i];
      UnreadFromStep(msgs, i, me);
      if m.receiver == me && !m.read {
        counts := counts[m.sender := (if m.sender in counts then counts[m.sender] else 0) + 1];
      }
    }
    assert msgs[..|msgs|] == msgs;
  }

  /** Counting one more message adds one for its sender exactly when it is unread by `me`. */
  lemma UnreadFromStep(msgs: seq<Message>, i: nat, me: string)
    requires i < |msgs|
    ensures forall s :: UnreadFrom(msgs[..i + 1], me, s)
                        == UnreadFrom(msgs[..i], me, s) + (if UnreadFor(msgs[i], me) && msgs[i].sender == s then 1 else 0)
  {
    assert msgs[..i + 1][..i] == msgs[..i];
  }

  /** `m` passes between `me` and `friend`, in either direction. */
  predicate Between(m: Message, me: string, friend: string) {
    (m.sender == me && m.receiver == friend) || (m.sender == friend && m.receiver == me)
  }

  /** Ascending by timestamp is descending by its negation, with the same stable order. */
  function Earliness(m: Message): int {
    -m.timestamp
  }

  /** The stored messages between the two, in stored order. */
  function Exchanged(msgs: seq<Message>, me: string, friend: string): seq<Message> {
    Filter(msgs, (m: Message) => Between(m, me, friend))
  }

  /** The open conversation: the messages between the two, oldest first, ties in stored order. */
  function Conversation(msgs: seq<Message>, me: string, friend: string): (r: seq<Message>)
    ensures |r| == |Exchanged(msgs, me, friend)|
    ensures forall i, j :: 0 <= i < j < |r| ==> r[i].timestamp <= r[j].timestamp
  {
    var r := SortDesc(Exchanged(msgs, me, friend), Earliness);
    EarliestFirst(r);
    r
  }

  /** Descending by `Earliness` is ascending by timestamp. */
  lemma EarliestFirst(r: seq<Message>)
    requires SortedDesc(r, Earliness)
    ensures forall i, j :: 0 <= i < j < |r| ==> r[i].timestamp <= r[j].timestamp
  {
    forall i, j | 0 <= i < j < |r| ensures r[i].timestamp <= r[j].timestamp {
      assert Earliness(r[i]) >= Earliness(r[j]);
    }
  }

  /**
   * The conversation holds exactly the stored messages between the two, each
   * as often as stored, in non-decreasing timestamp order.
   */
  lemma ConversationSpec(msgs: seq<Message>, me: string, friend: string)
    ensures var r := Conversation(msgs, me, friend);
            && multiset(r) == multiset(Exchanged(msgs, me, friend))
            && (forall m :: m in r <==> m in msgs && Between(m, me, friend))
            && forall i, j :: 0 <= i < j < |r| ==> r[i].timestamp <= r[j].timestamp
  {
    var f := Exchanged(msgs, me, friend);
    var r := Conversation(msgs, me, friend);
    forall m ensures m in r <==> m in f {
      assert m in r <==> m in multiset(r);
      assert m in f <==> m in multiset(f);
    }
    forall i, j | 0 <= i < j < |r| ensures r[i].timestamp <= r[j].timestamp {
      assert Earliness(r[i]) >= Earliness(r[j]);
    }
  }

  /** Messages of the conversation with equal timestamps keep their stored order. */
  lemma ConversationTies(msgs: seq<Message>, me: string, friend: string, k: int)
    ensures WithKey(Conversation(msgs, me, friend), Earliness, k) == WithKey(Exchanged(msgs, me, friend), Earliness, k)
  {
    SortDescStable(Exchanged(msgs, me, friend), Earliness, k);
  }

  /** `m` is an unread message from `friend` to `me`. */
  predicate UnreadFromTo(m: Message, friend: string, me: string) {
    m.sender == friend && m.receiver == me && !m.read
  }

  /** Some stored message from `friend` to `me` is unread. */
  predicate HasUnreadFrom(msgs: seq<Message>, friend: string, me: string) {
    exists m :: m in msgs && UnreadFromTo(m, friend, me)
  }

  /** The stored list after opening the conversation: those messages marked read, nothing else changed. */
  function MarkedRead(msgs: seq<Message>, me: string, friend: string): (r: seq<Message>)
    ensures |r| == |msgs|
    ensures forall i :: 0 <= i < |msgs| ==> r[i].(read := msgs[i].read) == msgs[i]
    ensures forall i :: 0 <= i < |msgs| ==> !UnreadFromTo(r[i], friend, me)
    ensures forall i :: 0 <= i < |msgs| && !(msgs[i].sender == friend && msgs[i].receiver == me) ==> r[i] == msgs[i]
  {
    MapSeq(msgs, (m: Message) => if UnreadFromTo(m, friend, me) then m.(read := true) else m)
  }

  /**
   * Marking read leaves no unread message from `friend` and every other
   * sender's count as it was.
   */
  lemma {:induction false} MarkedReadCounts(msgs: seq<Message>, me: string, friend: string, s: string)
    ensures UnreadFrom(MarkedRead(msgs, me, friend), me, s) == if s == friend then 0 else UnreadFrom(msgs, me, s)
  {
    if msgs != [] {
      var init := msgs[..|msgs| - 1];
      var r := MarkedRead(msgs, me, friend);
      MarkedReadCounts(init, me, friend, s);
      assert r[..|r| - 1] == MarkedRead(init, me, friend);
    }
  }

  /** Where nothing is unread from `friend`, marking read changes nothing. */
  lemma MarkedReadNothing(msgs: seq<Message>, me: string, friend: string)
    requires !HasUnreadFrom(msgs, friend, me)
    ensures MarkedRead(msgs, me, friend) == msgs
  {
    var r := MarkedRead(msgs, me, friend);
    forall i | 0 <= i < |msgs| ensures r[i] == msgs[i] {
      assert msgs[i] in msgs;
    }
  }

  /** The `map` with its `updated` flag: the new list, and whether any message changed. */
  method MarkRead(msgs: seq<Message>, me: string, friend: string) returns (updated: seq<Message>, changed: bool)
    ensures updated == MarkedRead(msgs, me, friend)
    ensures changed <==> HasUnreadFrom(msgs, friend, me)
  {
    updated := [];
    changed := false;
    for i := 0 to |msgs|
      invariant updated == MarkedRead(msgs[..i], me, friend)
      invariant changed <==> exists m :: m in msgs[..i] && UnreadFromTo(m, friend, me)
    {
      var m := msgs[i];
      assert msgs[..i + 1] == msgs[..i] + [m];
      if m.sender == friend && m.receiver == me && !m.read {
        changed := true;
        updated := updated + [m.(read := true)];
      } else {
        updated := updated + [m];
      }
    }
    assert msgs[..|msgs|] == msgs;
  }

  /** `f` matches the search: the lower-cased query occurs in the lower-cased name or key. */
  predicate Matches(f: User, query: string) {
    Includes(ToLower(f.name), ToLower(query)) || Includes(ToLower(f.regNo), ToLower(query))
  }

  /** `filteredFriends`. */
  function FilterFriends(friends: seq<User>, query: string): (r: seq<User>)
    ensures forall f :: f in r <==> f in friends && Matches(f, query)
    ensures Embeds(r, friends)
    ensures forall f {:trigger multiset(r)[f]} :: multiset(r)[f] == if Matches(f, query) then multiset(friends)[f] else 0
  {
    Filter(friends, (f: User) => Matches(f, query))
  }

  /** An empty query keeps every friend, in order. */
  lemma FilterFriendsEmpty(friends: seq<User>)
    ensures FilterFriends(friends, "") == friends
  {
    forall i | 0 <= i < |friends| ensures Matches(friends[i], "") {
      assert ToLower("") <= ToLower(friends[i].name)[0..];
    }
    FilterAll(friends, (f: User) => Matches(f, ""));
  }

  lemma LowerIdempotent(s: string)
    ensures ToLower(ToLower(s)) == ToLower(s)
  {
  }

  /** The search ignores the case of the query. */
  lemma FilterFriendsIgnoresCase(friends: seq<User>, query: string)
    ensures FilterFriends(friends, ToLower(query)) == FilterFriends(friends, query)
  {
    LowerIdempotent(query);
    FilterAgree(friends, (f: User) => Matches(f, ToLower(query)), (f: User) => Matches(f, query));
  }

  /** The page's state. */
  class ChatView {
    const me: string
    var friends: seq<Option<User>>
    var selected: Option<User>
    var shown: seq<Message>
    var unread: map<string, nat>
    var draft: string

    constructor (me: string)
      ensures this.me == me && friends == [] && selected == None && shown == [] && unread == map[] && draft == ""
    {
      this.me := me;
      friends := [];
      selected := None;
      shown := [];
      unread := map[];
      draft := "";
    }

    /** The effect run when the page opens: partners, counters, and a first selection. */
    method Load(store: Store)
      modifies this`friends, this`unread, this`selected
      ensures friends == FriendsOf(store.users, store.friendships, me)
      ensures forall s :: s in unread <==> UnreadFrom(store.messages, me, s) > 0
      ensures forall s :: s in unread ==> unread[s] == UnreadFrom(store.messages, me, s)
      ensures selected == if |friends| > 0 && old(selected).None? then friends[0] else old(selected)
    {
      var partners := FriendsOf(store.users, store.friendships, me);
      var counts := UnreadCounts(store.messages, me);
      friends := partners;
      unread := counts;
      if |partners| > 0 && selected.None? {
        selected := partners[0];
      }
    }

    /**
     * The effect run when a friend is selected: show the conversation, and
     * save the store and clear that friend's counter only if a message changed.
     */
    method OpenConversation(store: Store)
      modifies this`shown, this`unread, store`messages
      ensures selected.None? ==> shown == old(shown) && store.messages == old(store.messages)
      ensures selected.Some? ==> shown == Conversation(old(store.messages), me, selected.value.regNo)
      ensures selected.Some? ==> store.messages == MarkedRead(old(store.messages), me, selected.value.regNo)
      ensures selected.Some? && HasUnreadFrom(old(store.messages), selected.value.regNo, me)
              ==> unread == old(unread)[selected.value.regNo := 0]
      ensures selected.None? || !HasUnreadFrom(old(store.messages), selected.value.regNo, me)
              ==> unread == old(unread)
    {
      if selected.None? {
        return;
      }
      var friend := selected.value;
      shown := Conversation(store.messages, me, friend.regNo);
      SaveReadMarks(store, friend.regNo);
    }

    /** Marks the conversation read, and saves and clears the counter only if a message changed. */
    method SaveReadMarks(store: Store, friend: string)
      modifies this`unread, store`messages
      ensures store.messages == MarkedRead(old(store.messages), me, friend)
      ensures unread == if HasUnreadFrom(old(store.messages), friend, me) then old(unread)[friend := 0] else old(unread)
    {
      var allMsgs := store.messages;
      var newAllMsgs, changed := MarkRead(allMsgs, me, friend);
      if changed {
        store.messages := newAllMsgs;
        unread := unread[friend := 0];
      } else {
        MarkedReadNothing(allMsgs, me, friend);
      }
    }

    /**
     * `handleSend`: nothing for a blank draft or no selection; otherwise one
     * unread message carrying the draft as typed is appended, and the draft cleared.
     */
    method HandleSend(store: Store, id: string, now: int)
      modifies this`shown, this`draft, store`messages
      ensures AllSpace(old(draft)) || selected.None? ==>
        store.messages == old(store.messages) && shown == old(shown) && draft == old(draft)
      ensures !AllSpace(old(draft)) && selected.Some? ==>
        var msg := Message(id, me, selected.value.regNo, old(draft), now, false);
        && store.messages == old(store.messages) + [msg]
        && shown == old(shown) + [msg]
        && draft == ""
    {
      if Trim(draft) == [] || selected.None? {
        return;
      }
      var msg := Message(id, me, selected.value.regNo, draft, now, false);
      store.messages := store.messages + [msg];
      shown := shown + [msg];
      draft := "";
    }
  }
}
