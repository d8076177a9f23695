/**
 * The life of one relationship across the pages: a request sent from the
 * dashboard, then accepted, rejected or later removed on the relationship
 * page, as the graph rebuilt from the stored edges sees it.
 */
module Lifecycle {
  import opened Collections
  import opened Types
  import opened Friendships
  import opened Adjacency
  import opened FriendsPage
  import opened DashboardPage

  /** A request alone makes nobody adjacent: the rebuilt graph is unchanged. */
  lemma RequestLeavesGraph(users: seq<User>, fs: seq<Friendship>, a: string, b: string)
    ensures BuiltGraph(users, SendRequestEdges(fs, a, b)) == BuiltGraph(users, fs)
  {
    if !Linked(fs, a, b) {
      BuiltGraphIgnoresPending(users, fs, NewRequest(a, b));
    }
  }

  /**
   * A request from `a` to an unlinked `b`, accepted by `b`, makes the two
   * adjacent in both directions of the rebuilt graph.
   */
  lemma RequestThenAccept(users: seq<User>, fs: seq<Friendship>, a: string, b: string)
    requires a in RegNos(users) && b in RegNos(users)
    requires !Linked(fs, a, b)
    ensures var g := BuiltGraph(users, AcceptFrom(SendRequestEdges(fs, a, b), a, b));
            AdjacentIn(g, a, b) && AdjacentIn(g, b, a)
  {
    var sent := SendRequestEdges(fs, a, b);
    var nr := NewRequest(a, b);
    assert nr in sent && SentBy(nr, a, b);
    AcceptFromBefriends(sent, a, b, a, b);
    AcceptFromBefriends(sent, a, b, b, a);
  }

  /** Rejecting the request just sent restores the edge list exactly. */
  lemma {:induction false} RequestThenReject(fs: seq<Friendship>, a: string, b: string)
    requires !Linked(fs, a, b)
    ensures RejectFrom(SendRequestEdges(fs, a, b), a, b) == fs
  {
    var nr := NewRequest(a, b);
    FilterAppend(fs, [nr], f => !SentBy(f, a, b));
    forall i | 0 <= i < |fs| ensures !SentBy(fs[i], a, b) {
      assert fs[i] in fs && !Joins(fs[i], a, b);
    }
    FilterAll(fs, f => !SentBy(f, a, b));
    assert Filter([nr], f => !SentBy(f, a, b)) == [];
  }

  /** After unfriending, the rebuilt graph has the two apart, whatever edges there were. */
  lemma UnfriendSeparates(users: seq<User>, fs: seq<Friendship>, other: string, me: string)
    ensures var g := BuiltGraph(users, RemoveBetween(fs, other, me));
            !AdjacentIn(g, me, other) && !AdjacentIn(g, other, me)
  {
  }

  /** Unfriending touches no other pair: every other adjacency is as it was. */
  lemma UnfriendKeepsOthers(users: seq<User>, fs: seq<Friendship>, other: string, me: string, x: string, y: string)
    requires !((x == other && y == me) || (x == me && y == other))
    ensures AdjacentIn(BuiltGraph(users, RemoveBetween(fs, other, me)), x, y) <==>
            AdjacentIn(BuiltGraph(users, fs), x, y)
  {
    RemoveBetweenBefriends(fs, other, me, x, y);
  }
}
