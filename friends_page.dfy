/**
 * The relationship manager page: the friend list and the incoming requests it
 * derives from the store, and the three handlers that rewrite the edge list
 * (accept, reject, unfriend). Each handler reads the whole list, transforms
 * it and writes it back, then the page reloads its two lists.
 */
module FriendsPage {
  import opened Collections
  import opened Types
  import opened Friendships
  import opened Storage

  /**
   * The friend list: for each accepted edge touching `me`, in list order, the
   * first account with the partner's key. The source asserts that account
   * exists; where it does not the entry is `undefined`, here `None`.
   */
  function FriendsOf(users: seq<User>, fs: seq<Friendship>, me: string): (r: seq<Option<User>>)
    ensures |r| == |FriendRegNos(fs, me)|
    ensures forall i :: 0 <= i < |r| ==> r[i] == FindUser(users, FriendRegNos(fs, me)[i])
  {
    PartnersOfTouching(fs, me);
    MapSeq(AcceptedTouching(fs, me), (f: Friendship) => FindUser(users, Partner(f, me)))
  }

  /** The partner of `me` on each edge of `es`. */
  function Partners(es: seq<Friendship>, me: string): (r: seq<string>)
    ensures |r| == |es|
    ensures forall i :: 0 <= i < |es| ==> r[i] == Partner(es[i], me)
  {
    MapSeq(es, (f: Friendship) => Partner(f, me))
  }

  /** Taking the partners of the accepted edges touching `me` is `FriendRegNos`. */
  lemma {:induction false} PartnersOfTouching(fs: seq<Friendship>, me: string)
    ensures Partners(AcceptedTouching(fs, me), me) == FriendRegNos(fs, me)
  {
    if fs != [] {
      PartnersOfTouching(fs[1..], me);
      AcceptedTouchingCons(fs, me);
      var head := if TouchesAccepted(fs[0], me) then [fs[0]] else [];
      PartnersAppend(head, AcceptedTouching(fs[1..], me), me);
    }
  }

  lemma PartnersAppend(a: seq<Friendship>, b: seq<Friendship>, me: string)
    ensures Partners(a + b, me) == Partners(a, me) + Partners(b, me)
  {
  }

  /**
   * A listed account is on the friend list exactly when it is the first
   * account with its key and that key is befriended with `me`.
   */
  lemma FriendsOfMembers(users: seq<User>, fs: seq<Friendship>, me: string, u: User)
    ensures Some(u) in FriendsOf(users, fs, me) <==>
      Befriended(fs, me, u.regNo) && FindUser(users, u.regNo) == Some(u)
  {
    var r := FriendsOf(users, fs, me);
    var ps := FriendRegNos(fs, me);
    if Some(u) in r {
      var i :| 0 <= i < |r| && r[i] == Some(u);
      assert ps[i] in ps;
    }
    if Befriended(fs, me, u.regNo) && FindUser(users, u.regNo) == Some(u) {
      var i :| 0 <= i < |ps| && ps[i] == u.regNo;
      assert r[i] == Some(u);
    }
  }

  /** When every endpoint is a listed account, no entry of the friend list is missing. */
  lemma FriendsOfResolved(users: seq<User>, fs: seq<Friendship>, me: string)
    requires forall f :: f in fs ==> f.user1 in RegNos(users) && f.user2 in RegNos(users)
    ensures None !in FriendsOf(users, fs, me)
  {
    var r := FriendsOf(users, fs, me);
    var ps := FriendRegNos(fs, me);
    forall i | 0 <= i < |r| ensures r[i].Some? {
      assert ps[i] in ps;
      var f :| f in fs && f.status == Accepted && Joins(f, me, ps[i]);
    }
  }

  /** An incoming request as the page lists it: the sender's account and the sender's key. */
  datatype Request = Request(sender: Option<User>, requester: string)

  /** A pending edge addressed to `me` (as `user2`). */
  predicate IsIncoming(f: Friendship, me: string) {
    f.status == Pending && f.user2 == me
  }

  /** The incoming requests, in list order; the sender is read from `user1`, not from `requester`. */
  function IncomingRequests(users: seq<User>, fs: seq<Friendship>, me: string): (r: seq<Request>)
    ensures |r| == |Filter(fs, f => IsIncoming(f, me))|
    ensures forall i :: 0 <= i < |r| ==>
              r[i].requester == Filter(fs, f => IsIncoming(f, me))[i].user1
              && r[i].sender == FindUser(users, r[i].requester)
  {
    MapSeq(Filter(fs, f => IsIncoming(f, me)), (f: Friendship) => Request(FindUser(users, f.user1), f.user1))
  }

  lemma IncomingRequestsMembers(users: seq<User>, fs: seq<Friendship>, me: string, x: Request)
    ensures x in IncomingRequests(users, fs, me) <==>
      exists f :: f in fs && IsIncoming(f, me) && x == Request(FindUser(users, f.user1), f.user1)
  {
    MapSeqMembers(Filter(fs, f => IsIncoming(f, me)), (f: Friendship) => Request(FindUser(users, f.user1), f.user1), x);
  }

  /** `f` was sent by `sender` to `me`: the accept and reject handlers read edges in this orientation only. */
  predicate SentBy(f: Friendship, sender: string, me: string) {
    f.user1 == sender && f.user2 == me
  }

  /** Accept: every edge from `sender` to `me` becomes accepted; nothing else changes. */
  function AcceptFrom(fs: seq<Friendship>, sender: string, me: string): (r: seq<Friendship>)
    ensures |r| == |fs|
    ensures forall i :: 0 <= i < |fs| ==>
      && r[i].user1 == fs[i].user1 && r[i].user2 == fs[i].user2 && r[i].requester == fs[i].requester
      && r[i].status == (if SentBy(fs[i], sender, me) then Accepted else fs[i].status)
  {
    MapSeq(fs, f => if SentBy(f, sender, me) then f.(status := Accepted) else f)
  }

  /**
   * After an accept, two accounts are friends exactly when they were before,
   * or they are `sender` and `me` and some edge ran from `sender` to `me`.
   */
  lemma AcceptFromBefriends(fs: seq<Friendship>, sender: string, me: string, a: string, b: string)
    ensures Befriended(AcceptFrom(fs, sender, me), a, b) <==>
      Befriended(fs, a, b) || (exists f :: f in fs && SentBy(f, sender, me) && Joins(f, a, b))
  {
    var r := AcceptFrom(fs, sender, me);
    if Befriended(r, a, b) {
      var g :| g in r && g.status == Accepted && Joins(g, a, b);
      var i :| 0 <= i < |r| && r[i] == g;
      assert fs[i] in fs && Joins(fs[i], a, b);
    }
    if Befriended(fs, a, b) {
      var f :| f in fs && f.status == Accepted && Joins(f, a, b);
      var i :| 0 <= i < |fs| && fs[i] == f;
      assert r[i] in r && r[i].status == Accepted && Joins(r[i], a, b);
    }
    if exists f :: f in fs && SentBy(f, sender, me) && Joins(f, a, b) {
      var f :| f in fs && SentBy(f, sender, me) && Joins(f, a, b);
      var i :| 0 <= i < |fs| && fs[i] == f;
      assert r[i] in r && r[i].status == Accepted && Joins(r[i], a, b);
    }
  }

  /** Accept only rewrites a status, so no pair gains a second edge. */
  lemma AcceptFromKeepsPairs(fs: seq<Friendship>, sender: string, me: string)
    requires UniquePairs(fs)
    ensures UniquePairs(AcceptFrom(fs, sender, me))
  {
    var r := AcceptFrom(fs, sender, me);
    forall i, j | 0 <= i < j < |r| ensures !SamePair(r[i], r[j]) {
      assert !SamePair(fs[i], fs[j]);
    }
  }

  /** An edge `me` sent to `sender` is not accepted by `me` accepting from `sender`. */
  lemma AcceptFromIgnoresReverse(fs: seq<Friendship>, sender: string, me: string)
    requires forall f :: f in fs ==> !SentBy(f, sender, me)
    ensures AcceptFrom(fs, sender, me) == fs
  {
    var r := AcceptFrom(fs, sender, me);
    forall i | 0 <= i < |fs| ensures r[i] == fs[i] {
      assert fs[i] in fs;
    }
  }

  /** Reject: every edge from `sender` to `me` is deleted; the rest keep their order. */
  function RejectFrom(fs: seq<Friendship>, sender: string, me: string): (r: seq<Friendship>)
    ensures forall f :: f in r <==> f in fs && !SentBy(f, sender, me)
    ensures Embeds(r, fs)
    ensures forall f {:trigger multiset(r)[f]} :: multiset(r)[f] == if SentBy(f, sender, me) then 0 else multiset(fs)[f]
  {
    Filter(fs, f => !SentBy(f, sender, me))
  }

  /**
   * Unfriend: every edge between `other` and `me`, of either orientation and
   * status, is deleted (the handler's two-orientation test is `Joins`).
   */
  function RemoveBetween(fs: seq<Friendship>, other: string, me: string): (r: seq<Friendship>)
    ensures forall f :: f in r <==> f in fs && !Joins(f, other, me)
    ensures Embeds(r, fs)
    ensures forall f {:trigger multiset(r)[f]} :: multiset(r)[f] == if Joins(f, other, me) then 0 else multiset(fs)[f]
    ensures !Linked(r, other, me) && !Linked(r, me, other)
  {
    Filter(fs, f => !Joins(f, other, me))
  }

  /** Unfriending ends exactly the friendship of the two: every other pair is befriended as before. */
  lemma RemoveBetweenBefriends(fs: seq<Friendship>, other: string, me: string, x: string, y: string)
    ensures Befriended(RemoveBetween(fs, other, me), x, y) <==>
      Befriended(fs, x, y) && !((x == other && y == me) || (x == me && y == other))
  {
    var r := RemoveBetween(fs, other, me);
    if Befriended(fs, x, y) && !((x == other && y == me) || (x == me && y == other)) {
      var f :| f in fs && f.status == Accepted && Joins(f, x, y);
      assert f in r;
    }
  }

  /** Neither deleting handler adds an edge, so the pair invariant survives both. */
  lemma DeletionsKeepPairs(fs: seq<Friendship>, other: string, me: string)
    requires UniquePairs(fs)
    ensures UniquePairs(RejectFrom(fs, other, me)) && |RejectFrom(fs, other, me)| <= |fs|
    ensures UniquePairs(RemoveBetween(fs, other, me)) && |RemoveBetween(fs, other, me)| <= |fs|
  {
    UniquePairsFilter(fs, f => !SentBy(f, other, me));
    UniquePairsFilter(fs, f => !Joins(f, other, me));
  }

  /** The page's state: the current account and the two lists it shows. */
  class FriendsView {
    const me: string
    var friends: seq<Option<User>>
    var requests: seq<Request>

    constructor (store: Store, me: string)
      ensures this.me == me
      ensures friends == FriendsOf(store.users, store.friendships, me)
      ensures requests == IncomingRequests(store.users, store.friendships, me)
    {
      this.me := me;
      friends := FriendsOf(store.users, store.friendships, me);
      requests := IncomingRequests(store.users, store.friendships, me);
    }

    /** `loadData`. */
    method LoadData(store: Store)
      modifies this`friends, this`requests
      ensures friends == FriendsOf(store.users, store.friendships, me)
      ensures requests == IncomingRequests(store.users, store.friendships, me)
    {
      friends := FriendsOf(store.users, store.friendships, me);
      requests := IncomingRequests(store.users, store.friendships, me);
    }

    /** `handleAction`: accept or reject the request from `sender`, save, reload. */
    method HandleAction(store: Store, sender: string, accept: bool)
      modifies this`friends, this`requests, store`friendships
      ensures store.friendships == if accept then AcceptFrom(old(store.friendships), sender, me)
                                   else RejectFrom(old(store.friendships), sender, me)
      ensures friends == FriendsOf(store.users, store.friendships, me)
      ensures requests == IncomingRequests(store.users, store.friendships, me)
    {
      var fs := store.friendships;
      var updated;
      if accept {
        updated := AcceptFrom(fs, sender, me);
      } else {
        updated := RejectFrom(fs, sender, me);
      }
      store.friendships := updated;
      LoadData(store);
    }

    /** `removeFriend`: nothing happens unless the confirmation is given. */
    method RemoveFriend(store: Store, other: string, confirmed: bool)
      modifies this`friends, this`requests, store`friendships
      ensures store.friendships == if confirmed then RemoveBetween(old(store.friendships), other, me)
                                   else old(store.friendships)
      ensures !confirmed ==> friends == old(friends) && requests == old(requests)
      ensures confirmed ==> friends == FriendsOf(store.users, store.friendships, me)
      ensures confirmed ==> requests == IncomingRequests(store.users, store.friendships, me)
    {
      if !confirmed {
        return;
      }
      var fs := store.friendships;
      store.friendships := RemoveBetween(fs, other, me);
      LoadData(store);
    }
  }
}
