/**
 * The dashboard: the top of the recommendation list, the two counters, and
 * the request handler, the only handler that refuses to add a second edge
 * for a pair.
 */
module DashboardPage {
  import opened Collections
  import opened Sorting
  import opened Types
  import opened Friendships
  import opened Adjacency
  import opened Recommender
  import opened Storage
  import opened GraphServices
  import opened FriendsPage

  /** The number of accepted edges touching `me`. */
  function FriendCount(fs: seq<Friendship>, me: string): (n: nat)
    ensures n <= |fs|
    ensures n == 0 <==> forall f :: f in fs ==> !TouchesAccepted(f, me)
  {
    var r := AcceptedTouching(fs, me);
    assert r != [] ==> r[0] in r;
    |r|
  }

  /** The number of pending edges addressed to `me`. */
  function PendingCount(fs: seq<Friendship>, me: string): (n: nat)
    ensures n <= |fs|
    ensures n == 0 <==> forall f :: f in fs ==> !IsIncoming(f, me)
  {
    var r := Filter(fs, f => IsIncoming(f, me));
    assert r != [] ==> r[0] in r;
    |r|
  }

  /**
   * The friend counter is the length of the friend list and of the partner
   * list; under the pair invariant it is the degree `getFriends` reports.
   */
  lemma FriendCountAgrees(users: seq<User>, fs: seq<Friendship>, me: string)
    ensures FriendCount(fs, me) == |FriendRegNos(fs, me)| == |FriendsOf(users, fs, me)|
    ensures UniquePairs(fs) && me in RegNos(users) ==>
      FriendCount(fs, me) == |FriendsIn(BuiltGraph(users, fs), me)|
  {
    FriendRegNosCount(fs, me);
    if UniquePairs(fs) && me in RegNos(users) {
      BuiltGraphFriendsAgree(users, fs, me);
    }
  }

  /** The pending counter is the length of the request list. */
  lemma PendingCountAgrees(users: seq<User>, fs: seq<Friendship>, me: string)
    ensures PendingCount(fs, me) == |IncomingRequests(users, fs, me)|
  {
  }

  /** `slice(0, 4)`. */
  function Top4(recs: seq<Recommendation>): (r: seq<Recommendation>)
    ensures |r| == if |recs| < 4 then |recs| else 4
    ensures r <= recs
  {
    recs[..if |recs| < 4 then |recs| else 4]
  }

  /** Of a ranked list, the four shown are ranked too and score at least as much as any not shown. */
  lemma Top4Highest(recs: seq<Recommendation>)
    requires SortedDesc(recs, ScoreOf)
    ensures SortedDesc(Top4(recs), ScoreOf)
    ensures forall x, j :: x in Top4(recs) && |Top4(recs)| <= j < |recs| ==> x.score >= recs[j].score
  {
    var r := Top4(recs);
    forall x, j | x in r && |r| <= j < |recs| ensures x.score >= recs[j].score {
      var i :| 0 <= i < |r| && r[i] == x;
      assert recs[i] == x;
    }
  }

  /**
   * `sendRequest` on the edge list: unchanged when any edge, of either
   * orientation and any status, joins the two; otherwise one pending edge
   * from `me` is appended.
   */
  function SendRequestEdges(fs: seq<Friendship>, me: string, target: string): (r: seq<Friendship>)
    ensures Linked(fs, me, target) ==> r == fs
    ensures !Linked(fs, me, target) ==> r == fs + [Friendship(me, target, Pending, me)]
    ensures Linked(r, me, target)
  {
    if exists f :: f in fs && ((f.user1 == me && f.user2 == target) || (f.user1 == target && f.user2 == me)) then fs
    else
      var r := fs + [NewRequest(me, target)];
      assert NewRequest(me, target) in r;
      r
  }

  /** A request never gives a pair a second edge. */
  lemma SendRequestKeepsPairs(fs: seq<Friendship>, me: string, target: string)
    requires UniquePairs(fs)
    ensures UniquePairs(SendRequestEdges(fs, me, target))
  {
    var r := SendRequestEdges(fs, me, target);
    if !Linked(fs, me, target) {
      forall i, j | 0 <= i < j < |r| ensures !SamePair(r[i], r[j]) {
        if j == |fs| {
          assert fs[i] in fs;
          assert !Joins(fs[i], me, target);
        }
      }
    }
  }

  /** Sending the same request twice is the same as sending it once. */
  lemma SendRequestIdempotent(fs: seq<Friendship>, me: string, target: string)
    ensures SendRequestEdges(SendRequestEdges(fs, me, target), me, target) == SendRequestEdges(fs, me, target)
  {
  }

  /** The shown list after a request: the target dropped, the rest in order. */
  function DropTarget(recs: seq<Recommendation>, target: string): (r: seq<Recommendation>)
    ensures forall x :: x in r <==> x in recs && x.user.regNo != target
    ensures Embeds(r, recs)
    ensures forall x {:trigger multiset(r)[x]} :: multiset(r)[x] == if x.user.regNo == target then 0 else multiset(recs)[x]
  {
    Filter(recs, (x: Recommendation) => x.user.regNo != target)
  }

  /** The page's state: the account shown, the four recommendations and the two counters. */
  class DashboardView {
    const me: string
    var recs: seq<Recommendation>
    var friendCount: nat
    var pendingCount: nat

    constructor (me: string)
      ensures this.me == me && recs == [] && friendCount == 0 && pendingCount == 0
    {
      this.me := me;
      recs := [];
      friendCount := 0;
      pendingCount := 0;
    }

    /** The effect run when the page opens. */
    method Refresh(store: Store, service: GraphService)
      modifies this`recs, this`friendCount, this`pendingCount, service
      ensures service.adjacency == BuiltGraph(store.users, store.friendships)
      ensures recs == Top4(Recommend(store.users, service.adjacency, me))
      ensures friendCount == FriendCount(store.friendships, me)
      ensures pendingCount == PendingCount(store.friendships, me)
    {
      var all := service.GetRecommendations(store, me);
      recs := Top4(all);
      var fs := store.friendships;
      friendCount := |AcceptedTouching(fs, me)|;
      pendingCount := |Filter(fs, f => IsIncoming(f, me))|;
    }

    /** `sendRequest`. */
    method SendRequest(store: Store, target: string)
      modifies this`recs, store`friendships
      ensures store.friendships == SendRequestEdges(old(store.friendships), me, target)
      ensures recs == if Linked(old(store.friendships), me, target) then old(recs) else DropTarget(old(recs), target)
    {
      var existing := store.friendships;
      if exists f :: f in existing && ((f.user1 == me && f.user2 == target) || (f.user1 == target && f.user2 == me)) {
        return;
      }
      var newRequest := Friendship(me, target, Pending, me);
      store.friendships := existing + [newRequest];
      recs := Filter(recs, (x: Recommendation) => x.user.regNo != target);
    }
  }
}
