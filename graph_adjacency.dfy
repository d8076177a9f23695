/**
 * The adjacency map the graph service rebuilds from the store, and the three
 * queries it answers from it. A JavaScript `Set` is a duplicate-free sequence
 * in insertion order, so query results come out in the order the map holds.
 */
module Adjacency {
  import opened Collections
  import opened Types
  import opened Friendships

  type Graph = map<string, seq<string>>

  /** The two `add` calls one edge makes on `x`'s set. */
  function AddEdge(s: seq<string>, f: Friendship, x: string): (r: seq<string>)
    ensures forall y :: y in r <==> y in s || Joins(f, x, y)
    ensures NoDup(s) ==> NoDup(r)
  {
    var s1 := if f.user1 == x then SetAdd(s, f.user2) else s;
    if f.user2 == x then SetAdd(s1, f.user1) else s1
  }

  /** The set of a key `x` once every edge of `edges` has been added, in order. */
  function Neighbours(edges: seq<Friendship>, x: string): (r: seq<string>)
    ensures NoDup(r)
    ensures forall y :: y in r <==> Linked(edges, x, y)
  {
    if edges == [] then []
    else
      var init := edges[..|edges| - 1];
      var f := edges[|edges| - 1];
      assert edges == init + [f];
      assert forall y :: Linked(edges, x, y) <==> Linked(init, x, y) || Joins(f, x, y) by {
        assert forall g :: g in edges <==> g in init || g == f;
      }
      AddEdge(Neighbours(init, x), f, x)
  }

  /**
   * The map `buildGraph` leaves behind: one entry per listed account and,
   * under it, the accounts joined to it by an accepted edge. Nothing of an
   * earlier build enters the definition.
   */
  function BuiltGraph(users: seq<User>, fs: seq<Friendship>): (g: Graph)
    ensures g.Keys == RegNos(users)
    ensures forall x, y :: x in g ==> (y in g[x] <==> Befriended(fs, x, y))
    ensures forall x :: x in g ==> NoDup(g[x])
  {
    map x | x in RegNos(users) :: Neighbours(AcceptedOnly(fs), x)
  }

  /** `getFriends`: the key's set, or nothing for an unknown key. */
  function FriendsIn(g: Graph, x: string): (r: seq<string>)
    ensures x !in g ==> r == []
    ensures forall y :: y in r <==> x in g && y in g[x]
  {
    if x in g then g[x] else []
  }

  /** `getMutualFriends`: the members of `a`'s set that are also in `b`'s, in `a`'s order. */
  function MutualIn(g: Graph, a: string, b: string): (r: seq<string>)
    ensures forall y :: y in r <==> y in FriendsIn(g, a) && y in FriendsIn(g, b)
    ensures Embeds(r, FriendsIn(g, a))
    ensures NoDup(FriendsIn(g, a)) ==> NoDup(r)
  {
    var fb := FriendsIn(g, b);
    Filter(FriendsIn(g, a), y => y in fb)
  }

  /** `areFriends`: `b` is in `a`'s set; false for an unknown `a`. */
  function AdjacentIn(g: Graph, a: string, b: string): (r: bool)
    ensures r <==> b in FriendsIn(g, a)
  {
    a in g && b in g[a]
  }

  /** Adjacency in a rebuilt map is symmetric between listed accounts. */
  lemma BuiltGraphSymmetric(users: seq<User>, fs: seq<Friendship>, x: string, y: string)
    requires x in RegNos(users) && y in RegNos(users)
    ensures AdjacentIn(BuiltGraph(users, fs), x, y) <==> AdjacentIn(BuiltGraph(users, fs), y, x)
  {
    var g := BuiltGraph(users, fs);
    if y in g[x] {
      var f :| f in fs && f.status == Accepted && Joins(f, x, y);
      assert Joins(f, y, x);
    }
    if x in g[y] {
      var f :| f in fs && f.status == Accepted && Joins(f, y, x);
      assert Joins(f, x, y);
    }
  }

  /**
   * An accepted edge to an account that is not listed is still recorded on the
   * listed side, while the unlisted account gets no entry.
   */
  lemma BuiltGraphDangling(users: seq<User>, fs: seq<Friendship>, f: Friendship)
    requires f in fs && f.status == Accepted
    requires f.user1 in RegNos(users) && f.user2 !in RegNos(users)
    ensures f.user2 in FriendsIn(BuiltGraph(users, fs), f.user1)
    ensures f.user2 !in BuiltGraph(users, fs)
    ensures !AdjacentIn(BuiltGraph(users, fs), f.user2, f.user1)
  {
    assert Joins(f, f.user1, f.user2);
  }

  /** A pending edge changes nothing: only accepted edges are read. */
  lemma BuiltGraphIgnoresPending(users: seq<User>, fs: seq<Friendship>, f: Friendship)
    requires f.status == Pending
    ensures BuiltGraph(users, fs + [f]) == BuiltGraph(users, fs)
  {
    FilterAppend(fs, [f], IsAccepted);
    assert Filter([f], IsAccepted) == [];
    assert AcceptedOnly(fs + [f]) == AcceptedOnly(fs);
  }

  /** An accepted self-edge of a listed account makes it its own neighbour. */
  lemma BuiltGraphSelfEdge(users: seq<User>, fs: seq<Friendship>, x: string)
    requires x in RegNos(users) && Friendship(x, x, Accepted, x) in fs
    ensures AdjacentIn(BuiltGraph(users, fs), x, x)
  {
    assert Joins(Friendship(x, x, Accepted, x), x, x);
  }

  /** Without self-edges nobody is their own neighbour. */
  lemma BuiltGraphNoSelfLoop(users: seq<User>, fs: seq<Friendship>, x: string)
    requires forall f :: f in fs ==> f.user1 != f.user2
    ensures !AdjacentIn(BuiltGraph(users, fs), x, x)
  {
  }

  /** Unknown keys: every query answers with nothing. */
  lemma QueriesOnUnknown(g: Graph, x: string, y: string)
    requires x !in g
    ensures FriendsIn(g, x) == []
    ensures MutualIn(g, x, y) == [] && MutualIn(g, y, x) == []
    ensures !AdjacentIn(g, x, y)
  {
    var fx := FriendsIn(g, x);
    FilterNone(FriendsIn(g, y), z => z in fx);
  }

  /** Mutual friends in a rebuilt map: accounts befriended with both, each once. */
  lemma MutualInBuilt(users: seq<User>, fs: seq<Friendship>, a: string, b: string)
    ensures forall y :: y in MutualIn(BuiltGraph(users, fs), a, b) <==>
      a in RegNos(users) && b in RegNos(users) && Befriended(fs, a, y) && Befriended(fs, b, y)
    ensures NoDup(MutualIn(BuiltGraph(users, fs), a, b))
  {
  }

  lemma NeighboursSnoc(edges: seq<Friendship>, f: Friendship, x: string)
    ensures Neighbours(edges + [f], x) == AddEdge(Neighbours(edges, x), f, x)
  {
    assert (edges + [f])[..|edges|] == edges;
  }

  /** On `me`'s set, one accepted edge adds its partner exactly when it touches `me`. */
  lemma AddEdgeAccepted(s: seq<string>, f: Friendship, me: string)
    requires f.status == Accepted
    ensures AddEdge(s, f, me) == if TouchesAccepted(f, me) then SetAdd(s, Partner(f, me)) else s
  {
    if f.user1 == me && f.user2 == me {
      assert me in SetAdd(s, me);
    }
  }

  lemma FriendRegNosSnoc(fs: seq<Friendship>, f: Friendship, me: string)
    ensures FriendRegNos(fs + [f], me)
         == FriendRegNos(fs, me) + (if TouchesAccepted(f, me) then [Partner(f, me)] else [])
  {
    if fs == [] {
      assert [] + [f] == [f];
    } else {
      assert (fs + [f])[1..] == fs[1..] + [f];
      FriendRegNosSnoc(fs[1..], f, me);
    }
  }

  /**
   * The rebuilt set of a listed account is its partner list from the edge list,
   * with later repeats dropped.
   */
  lemma {:induction false} NeighboursAreFriendRegNos(fs: seq<Friendship>, me: string)
    ensures Neighbours(AcceptedOnly(fs), me) == Dedup(FriendRegNos(fs, me))
  {
    if fs != [] {
      var init := fs[..|fs| - 1];
      var f := fs[|fs| - 1];
      assert fs == init + [f];
      NeighboursAreFriendRegNos(init, me);
      NeighboursStep(init, f, me);
    }
  }

  lemma NeighboursStep(init: seq<Friendship>, f: Friendship, me: string)
    requires Neighbours(AcceptedOnly(init), me) == Dedup(FriendRegNos(init, me))
    ensures Neighbours(AcceptedOnly(init + [f]), me) == Dedup(FriendRegNos(init + [f], me))
  {
    FilterAppend(init, [f], IsAccepted);
    FriendRegNosSnoc(init, f, me);
    var s := Neighbours(AcceptedOnly(init), me);
    var fr := FriendRegNos(init, me);
    if f.status == Accepted {
      assert Filter([f], IsAccepted) == [f];
      NeighboursSnoc(AcceptedOnly(init), f, me);
      AddEdgeAccepted(s, f, me);
      if TouchesAccepted(f, me) {
        DedupSnoc(fr, Partner(f, me));
      } else {
        assert fr + [] == fr;
      }
    } else {
      assert Filter([f], IsAccepted) == [];
      assert AcceptedOnly(init) + [] == AcceptedOnly(init);
      assert fr + [] == fr;
    }
  }

  /**
   * Under the pair invariant, `getFriends` on a rebuilt map is exactly the
   * partner list the pages derive from the edge list, in the same order.
   */
  lemma BuiltGraphFriendsAgree(users: seq<User>, fs: seq<Friendship>, me: string)
    requires UniquePairs(fs) && me in RegNos(users)
    ensures FriendsIn(BuiltGraph(users, fs), me) == FriendRegNos(fs, me)
  {
    NeighboursAreFriendRegNos(fs, me);
    FriendRegNosUnique(fs, me);
    DedupOfNoDup(FriendRegNos(fs, me));
  }
}
