/**
 * Predicates over the stored edge list that every page shares: which edges
 * join two accounts, the invariant "at most one edge per unordered pair",
 * and the partner list derived from the accepted edges of one account.
 */
module Friendships {
  import opened Collections
  import opened Types

  /** `f` joins `a` and `b`, in either orientation. */
  predicate Joins(f: Friendship, a: string, b: string) {
    (f.user1 == a && f.user2 == b) || (f.user1 == b && f.user2 == a)
  }

  /** Some edge, of any status, joins `a` and `b`. */
  predicate Linked(fs: seq<Friendship>, a: string, b: string) {
    exists f :: f in fs && Joins(f, a, b)
  }

  /** Some accepted edge joins `a` and `b`. */
  predicate Befriended(fs: seq<Friendship>, a: string, b: string) {
    exists f :: f in fs && f.status == Accepted && Joins(f, a, b)
  }

  /** `f` and `g` are about the same unordered pair. */
  predicate SamePair(f: Friendship, g: Friendship) {
    Joins(g, f.user1, f.user2)
  }

  /** At most one edge per unordered pair. */
  predicate UniquePairs(fs: seq<Friendship>) {
    forall i, j :: 0 <= i < j < |fs| ==> !SamePair(fs[i], fs[j])
  }

  predicate IsAccepted(f: Friendship) {
    f.status == Accepted
  }

  /** `friendships.filter(f => f.status === 'accepted')`. */
  function AcceptedOnly(fs: seq<Friendship>): (r: seq<Friendship>)
    ensures forall f :: f in r <==> f in fs && f.status == Accepted
    ensures forall a, b :: Linked(r, a, b) <==> Befriended(fs, a, b)
  {
    Filter(fs, IsAccepted)
  }

  /** The edge a request from `me` to `target` creates. */
  function NewRequest(me: string, target: string): (f: Friendship)
    ensures f.status == Pending && f.requester == me && Joins(f, me, target)
  {
    Friendship(me, target, Pending, me)
  }

  /** The endpoint of `f` that is not `me` (`user2` when `me` is `user1`). */
  function Partner(f: Friendship, me: string): string {
    if f.user1 == me then f.user2 else f.user1
  }

  predicate TouchesAccepted(f: Friendship, me: string) {
    f.status == Accepted && (f.user1 == me || f.user2 == me)
  }

  /**
   * The partner registration numbers of `me`: for each accepted edge touching
   * `me`, in list order, its other endpoint. A pair with two accepted edges
   * appears twice.
   */
  function FriendRegNos(fs: seq<Friendship>, me: string): (r: seq<string>)
    ensures |r| <= |fs|
    ensures forall y :: y in r <==> Befriended(fs, me, y)
  {
    if fs == [] then []
    else
      var rest := FriendRegNos(fs[1..], me);
      assert forall f :: f in fs <==> f == fs[0] || f in fs[1..] by {
        assert fs == [fs[0]] + fs[1..];
      }
      (if TouchesAccepted(fs[0], me) then [Partner(fs[0], me)] else []) + rest
  }

  /** The accepted edges touching `me`, in list order. */
  function AcceptedTouching(fs: seq<Friendship>, me: string): seq<Friendship> {
    Filter(fs, (f: Friendship) => TouchesAccepted(f, me))
  }

  lemma AcceptedTouchingCons(fs: seq<Friendship>, me: string)
    requires fs != []
    ensures AcceptedTouching(fs, me) ==
      (if TouchesAccepted(fs[0], me) then [fs[0]] else []) + AcceptedTouching(fs[1..], me)
  {
  }

  /** The number of partners is the number of accepted edges touching `me`. */
  lemma {:induction false} FriendRegNosCount(fs: seq<Friendship>, me: string)
    ensures |FriendRegNos(fs, me)| == |AcceptedTouching(fs, me)|
  {
    if fs != [] {
      FriendRegNosCount(fs[1..], me);
      AcceptedTouchingCons(fs, me);
    }
  }

  /** Under the pair invariant every partner occurs once. */
  lemma {:induction false} FriendRegNosUnique(fs: seq<Friendship>, me: string)
    requires UniquePairs(fs)
    ensures NoDup(FriendRegNos(fs, me))
  {
    if fs != [] {
      assert UniquePairs(fs[1..]) by {
        forall i, j | 0 <= i < j < |fs[1..]| ensures !SamePair(fs[1..][i], fs[1..][j]) {
          assert fs[1..][i] == fs[i + 1] && fs[1..][j] == fs[j + 1];
        }
      }
      FriendRegNosUnique(fs[1..], me);
      if TouchesAccepted(fs[0], me) {
        var y := Partner(fs[0], me);
        forall g | g in fs[1..] && g.status == Accepted ensures !Joins(g, me, y) {
          var k :| 0 <= k < |fs[1..]| && fs[1..][k] == g;
          assert fs[k + 1] == g;
        }
        var rest := FriendRegNos(fs[1..], me);
        assert y !in rest;
        var r := [y] + rest;
        assert FriendRegNos(fs, me) == r;
        forall i, j | 0 <= i < j < |r| ensures r[i] != r[j] {
          if i == 0 {
            assert r[j] == rest[j - 1];
          } else {
            assert r[i] == rest[i - 1] && r[j] == rest[j - 1];
          }
        }
      }
    }
  }

  /** The pair invariant holds for every suffix of a list that has it. */
  lemma UniquePairsTail(fs: seq<Friendship>)
    requires UniquePairs(fs) && fs != []
    ensures UniquePairs(fs[1..])
    ensures forall g :: g in fs[1..] ==> !SamePair(fs[0], g)
  {
    forall i, j | 0 <= i < j < |fs[1..]| ensures !SamePair(fs[1..][i], fs[1..][j]) {
      assert fs[1..][i] == fs[i + 1] && fs[1..][j] == fs[j + 1];
    }
    forall g | g in fs[1..] ensures !SamePair(fs[0], g) {
      var k :| 0 <= k < |fs[1..]| && fs[1..][k] == g;
      assert fs[k + 1] == g;
    }
  }

  /** An edge about a pair no later edge is about keeps the invariant when put in front. */
  lemma UniquePairsCons(f: Friendship, rest: seq<Friendship>)
    requires UniquePairs(rest)
    requires forall g :: g in rest ==> !SamePair(f, g)
    ensures UniquePairs([f] + rest)
  {
    var r := [f] + rest;
    forall i, j | 0 <= i < j < |r| ensures !SamePair(r[i], r[j]) {
      if i == 0 {
        assert r[j] == rest[j - 1] && r[j] in rest;
      } else {
        assert r[i] == rest[i - 1] && r[j] == rest[j - 1];
      }
    }
  }

  /** Dropping edges never breaks the pair invariant. */
  lemma {:induction false} UniquePairsFilter(fs: seq<Friendship>, p: Friendship -> bool)
    requires UniquePairs(fs)
    ensures UniquePairs(Filter(fs, p))
  {
    if fs != [] {
      UniquePairsTail(fs);
      UniquePairsFilter(fs[1..], p);
      if p(fs[0]) {
        UniquePairsCons(fs[0], Filter(fs[1..], p));
      }
    }
  }
}
