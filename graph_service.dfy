/**
 * The graph service object: it holds the adjacency map and rebuilds it from
 * the store at the start of every query, so each answer is computed from the
 * edge list as it is at that moment.
 */
module GraphServices {
  import opened Collections
  import opened Sorting
  import opened Types
  import opened Friendships
  import opened Adjacency
  import opened Recommender
  import opened Storage

  class GraphService {
    var adjacency: Graph

    constructor (store: Store)
      ensures adjacency == BuiltGraph(store.users, store.friendships)
    {
      adjacency := map[];
      new;
      BuildGraph(store);
    }

    /**
     * `buildGraph`: clear the map, give every account an empty set, then add
     * both directions of every accepted edge, each only where its key exists.
     */
    method BuildGraph(store: Store)
      modifies this
      ensures adjacency == BuiltGraph(store.users, store.friendships)
    {
      var edges := AcceptedOnly(store.friendships);
      var users := store.users;
      SeedEmpty(users);
      for k := 0 to |edges|
        invariant adjacency.Keys == RegNos(users)
        invariant forall x :: x in adjacency ==> adjacency[x] == Neighbours(edges[..k], x)
      {
        AddBothDirections(edges[k]);
        assert edges[..k + 1] == edges[..k] + [edges[k]];
        forall x | x in adjacency ensures adjacency[x] == Neighbours(edges[..k + 1], x) {
          NeighboursSnoc(edges[..k], edges[k], x);
        }
      }
      assert edges[..|edges|] == edges;
      assert forall x :: x in adjacency ==> adjacency[x] == BuiltGraph(store.users, store.friendships)[x];
    }

    /** `clear`, then an empty set per account. */
    method SeedEmpty(users: seq<User>)
      modifies this
      ensures adjacency.Keys == RegNos(users)
      ensures forall x :: x in adjacency ==> adjacency[x] == []
    {
      adjacency := map[];
      for i := 0 to |users|
        invariant adjacency.Keys == RegNos(users[..i])
        invariant forall x :: x in adjacency ==> adjacency[x] == []
      {
        assert users[..i + 1] == users[..i] + [users[i]];
        adjacency := adjacency[users[i].regNo := []];
      }
      assert users[..|users|] == users;
    }

    /** The two `add` calls of one edge, each guarded by its key being present. */
    method AddBothDirections(f: Friendship)
      modifies this
      ensures adjacency.Keys == old(adjacency.Keys)
      ensures forall x :: x in adjacency ==> adjacency[x] == AddEdge(old(adjacency[x]), f, x)
    {
      if f.user1 in adjacency {
        adjacency := adjacency[f.user1 := SetAdd(adjacency[f.user1], f.user2)];
      }
      if f.user2 in adjacency {
        adjacency := adjacency[f.user2 := SetAdd(adjacency[f.user2], f.user1)];
      }
    }

    /** `getFriends`. */
    method GetFriends(store: Store, regNo: string) returns (r: seq<string>)
      modifies this
      ensures adjacency == BuiltGraph(store.users, store.friendships)
      ensures r == FriendsIn(adjacency, regNo)
    {
      BuildGraph(store);
      r := if regNo in adjacency then adjacency[regNo] else [];
    }

    /** `getMutualFriends`: `a`'s set filtered by membership in `b`'s. */
    method GetMutualFriends(store: Store, a: string, b: string) returns (r: seq<string>)
      modifies this
      ensures adjacency == BuiltGraph(store.users, store.friendships)
      ensures r == MutualIn(adjacency, a, b)
    {
      BuildGraph(store);
      var friendsA := if a in adjacency then adjacency[a] else [];
      var friendsB := if b in adjacency then adjacency[b] else [];
      r := Filter(friendsA, y => y in friendsB);
    }

    /** `getRecommendations`. */
    method GetRecommendations(store: Store, t: string) returns (r: seq<Recommendation>)
      modifies this
      ensures adjacency == BuiltGraph(store.users, store.friendships)
      ensures r == Recommend(store.users, adjacency, t)
    {
      BuildGraph(store);
      var users := store.users;
      var me := FindUser(users, t);
      if me.None? {
        return [];
      }
      var keys, data := ScoreCandidates(users, adjacency, t, me.value.department);
      r := SortDesc(Resolve(users, keys, data), ScoreOf);
    }

    /** `areFriends`. */
    method AreFriends(store: Store, a: string, b: string) returns (r: bool)
      modifies this
      ensures adjacency == BuiltGraph(store.users, store.friendships)
      ensures r == AdjacentIn(adjacency, a, b)
    {
      BuildGraph(store);
      r := a in adjacency && b in adjacency[a];
    }
  }
}
