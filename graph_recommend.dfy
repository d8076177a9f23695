/**
 * The recommendation engine of the graph service. Pass 1 walks the target's
 * friends and, for each, that friend's own friends; pass 2 walks the account
 * list for the same-department bonus. The scoring map is a JavaScript `Map`,
 * so its keys come out in first-insertion order, and the final stable sort
 * keeps that order among equal scores.
 *
 * The specification below names the stream of pass-1 visits (`Pass1`) and
 * derives every entry of the scoring map from it; `ScoreCandidates` is the
 * loop itself, proved to build exactly that map.
 */
module Recommender {
  import opened Collections
  import opened Sorting
  import opened Types
  import opened Adjacency

  /** A candidate is neither the target nor already one of the target's friends. */
  predicate Admissible(t: string, friends: seq<string>, c: string) {
    c != t && c !in friends
  }

  /** One visit of pass 1: a friend of the target and an admissible friend of that friend. */
  type Visit = (string, string)

  /** The visits made while walking `ns`, the friends of `friend`, in order. */
  function VisitsOf(t: string, friends: seq<string>, friend: string, ns: seq<string>): seq<Visit> {
    if ns == [] then []
    else
      var c := ns[|ns| - 1];
      VisitsOf(t, friends, friend, ns[..|ns| - 1]) + (if Admissible(t, friends, c) then [(friend, c)] else [])
  }

  /** The visits made while walking the target's friends `fs`, in order. */
  function Visits(g: Graph, t: string, friends: seq<string>, fs: seq<string>): seq<Visit> {
    if fs == [] then []
    else
      var f := fs[|fs| - 1];
      Visits(g, t, friends, fs[..|fs| - 1]) + VisitsOf(t, friends, f, FriendsIn(g, f))
  }

  /** Every visit pass 1 makes for target `t`. */
  function Pass1(g: Graph, t: string): seq<Visit> {
    Visits(g, t, FriendsIn(g, t), FriendsIn(g, t))
  }

  /** The candidates of a visit stream, in visiting order. */
  function Seconds(vs: seq<Visit>): seq<string> {
    if vs == [] then [] else Seconds(vs[..|vs| - 1]) + [vs[|vs| - 1].1]
  }

  /** The friends through whom `c` was visited, in visiting order. */
  function ContributorsOf(vs: seq<Visit>, c: string): seq<string> {
    if vs == [] then []
    else
      var p := vs[|vs| - 1];
      ContributorsOf(vs[..|vs| - 1], c) + (if p.1 == c then [p.0] else [])
  }

  /** How many accounts listed in `users` have key `c` and department `dept`. */
  function DeptCount(users: seq<User>, c: string, dept: string): nat {
    if users == [] then 0
    else
      var u := users[|users| - 1];
      DeptCount(users[..|users| - 1], c, dept) + (if u.regNo == c && u.department == dept then 1 else 0)
  }

  /** The admissible accounts of `users` in department `dept`, in list order, repeats kept. */
  function DeptMatches(users: seq<User>, t: string, friends: seq<string>, dept: string): seq<string> {
    if users == [] then []
    else
      var u := users[|users| - 1];
      DeptMatches(users[..|users| - 1], t, friends, dept)
        + (if Admissible(t, friends, u.regNo) && u.department == dept then [u.regNo] else [])
  }

  /** An entry of the scoring map. */
  datatype Scored = Scored(mutuals: seq<string>, score: int)

  /**
   * The entry of candidate `c` once the visits `vs` and the accounts `users`
   * have been walked: its distinct contributors in first-visit order, ten
   * points for each, and five for each listed account that carries key `c`
   * and department `dept`.
   */
  function Entry(users: seq<User>, vs: seq<Visit>, c: string, dept: string): Scored {
    var m := Dedup(ContributorsOf(vs, c));
    Scored(m, 10 * |m| + 5 * DeptCount(users, c, dept))
  }

  /** The keys of the scoring map, in first-insertion order. */
  function Candidates(users: seq<User>, g: Graph, t: string, dept: string): seq<string> {
    Dedup(Seconds(Pass1(g, t)) + DeptMatches(users, t, FriendsIn(g, t), dept))
  }

  /** The scoring map after both passes. */
  function ScoreTable(users: seq<User>, g: Graph, t: string, dept: string): map<string, Scored> {
    map c | c in Candidates(users, g, t, dept) :: Entry(users, Pass1(g, t), c, dept)
  }

  function ToRecommendation(u: User, d: Scored): (r: Recommendation)
    ensures r.user == u && r.mutualFriends == d.mutuals && r.mutualCount == |r.mutualFriends| && r.score == d.score
  {
    Recommendation(u, |d.mutuals|, d.mutuals, d.score)
  }

  /**
   * The entries of the scoring map in key order, each attached to the first
   * listed account with its key; keys that match no account are dropped.
   */
  function Resolve(users: seq<User>, keys: seq<string>, data: map<string, Scored>): (r: seq<Recommendation>)
    requires forall c :: c in keys ==> c in data
    ensures forall x :: x in r ==> x.user.regNo in keys && FindUser(users, x.user.regNo) == Some(x.user)
                                    && x == ToRecommendation(x.user, data[x.user.regNo])
    ensures forall c :: c in keys && c in RegNos(users) ==>
              ToRecommendation(FindUser(users, c).value, data[c]) in r
  {
    if keys == [] then []
    else
      var init := keys[..|keys| - 1];
      var c := keys[|keys| - 1];
      assert keys == init + [c];
      var rest := Resolve(users, init, data);
      match FindUser(users, c)
      case None => rest
      case Some(u) => rest + [ToRecommendation(u, data[c])]
  }

  function ScoreOf(x: Recommendation): int {
    x.score
  }

  /**
   * `getRecommendations`: nothing for an unlisted target; otherwise the
   * resolved entries of the scoring map, stably sorted by non-increasing score.
   */
  function Recommend(users: seq<User>, g: Graph, t: string): (r: seq<Recommendation>)
    ensures t !in RegNos(users) ==> r == []
    ensures SortedDesc(r, ScoreOf)
  {
    match FindUser(users, t)
    case None => []
    case Some(me) =>
      SortDesc(Resolve(users, Candidates(users, g, t, me.department),
                       ScoreTable(users, g, t, me.department)), ScoreOf)
  }

  lemma {:induction false} VisitsOfMembers(t: string, friends: seq<string>, friend: string, ns: seq<string>, p: Visit)
    ensures p in VisitsOf(t, friends, friend, ns) <==> p.0 == friend && p.1 in ns && Admissible(t, friends, p.1)
  {
    if ns != [] {
      var init := ns[..|ns| - 1];
      assert ns == init + [ns[|ns| - 1]];
      VisitsOfMembers(t, friends, friend, init, p);
    }
  }

  /** Pass 1 visits exactly the pairs (friend of the target, admissible friend of that friend). */
  lemma {:induction false} VisitsMembers(g: Graph, t: string, friends: seq<string>, fs: seq<string>, p: Visit)
    ensures p in Visits(g, t, friends, fs) <==>
      p.0 in fs && p.1 in FriendsIn(g, p.0) && Admissible(t, friends, p.1)
  {
    if fs != [] {
      var init := fs[..|fs| - 1];
      var f := fs[|fs| - 1];
      assert fs == init + [f];
      VisitsMembers(g, t, friends, init, p);
      VisitsOfMembers(t, friends, f, FriendsIn(g, f), p);
    }
  }

  lemma {:induction false} ContributorsMembers(vs: seq<Visit>, c: string, f: string)
    ensures f in ContributorsOf(vs, c) <==> (f, c) in vs
  {
    if vs != [] {
      var init := vs[..|vs| - 1];
      assert vs == init + [vs[|vs| - 1]];
      ContributorsMembers(init, c, f);
    }
  }

  /** A candidate has a contributor exactly when it occurs among the visited candidates. */
  lemma {:induction false} ContributorsEmpty(vs: seq<Visit>, c: string)
    ensures ContributorsOf(vs, c) == [] <==> c !in Seconds(vs)
  {
    if vs != [] {
      var init := vs[..|vs| - 1];
      assert vs == init + [vs[|vs| - 1]];
      ContributorsEmpty(init, c);
    }
  }

  lemma {:induction false} DeptCountPositive(users: seq<User>, c: string, dept: string)
    ensures DeptCount(users, c, dept) > 0 <==> exists u :: u in users && u.regNo == c && u.department == dept
  {
    if users != [] {
      var init := users[..|users| - 1];
      assert users == init + [users[|users| - 1]];
      DeptCountPositive(init, c, dept);
    }
  }

  lemma {:induction false} DeptMatchesMembers(users: seq<User>, t: string, friends: seq<string>, dept: string, c: string)
    ensures c in DeptMatches(users, t, friends, dept) <==> Admissible(t, friends, c) && DeptCount(users, c, dept) > 0
  {
    if users != [] {
      var init := users[..|users| - 1];
      assert users == init + [users[|users| - 1]];
      DeptMatchesMembers(init, t, friends, dept, c);
    }
  }

  lemma VisitsOfSnoc(t: string, friends: seq<string>, friend: string, ns: seq<string>, j: nat)
    requires j < |ns|
    ensures VisitsOf(t, friends, friend, ns[..j + 1])
         == VisitsOf(t, friends, friend, ns[..j])
            + (if Admissible(t, friends, ns[j]) then [(friend, ns[j])] else [])
  {
    assert ns[..j + 1][..j] == ns[..j];
  }

  lemma VisitsSnoc(g: Graph, t: string, friends: seq<string>, fs: seq<string>, i: nat)
    requires i < |fs|
    ensures Visits(g, t, friends, fs[..i + 1])
         == Visits(g, t, friends, fs[..i]) + VisitsOf(t, friends, fs[i], FriendsIn(g, fs[i]))
  {
    assert fs[..i + 1][..i] == fs[..i];
  }

  lemma SecondsSnoc(vs: seq<Visit>, p: Visit)
    ensures Seconds(vs + [p]) == Seconds(vs) + [p.1]
  {
    assert (vs + [p])[..|vs|] == vs;
  }

  lemma ContributorsSnoc(vs: seq<Visit>, p: Visit, c: string)
    ensures ContributorsOf(vs + [p], c) == ContributorsOf(vs, c) + (if p.1 == c then [p.0] else [])
  {
    assert (vs + [p])[..|vs|] == vs;
  }

  lemma DeptCountSnoc(users: seq<User>, k: nat, c: string, dept: string)
    requires k < |users|
    ensures DeptCount(users[..k + 1], c, dept)
         == DeptCount(users[..k], c, dept) + (if users[k].regNo == c && users[k].department == dept then 1 else 0)
  {
    assert users[..k + 1][..k] == users[..k];
  }

  lemma DeptMatchesSnoc(users: seq<User>, k: nat, t: string, friends: seq<string>, dept: string)
    requires k < |users|
    ensures DeptMatches(users[..k + 1], t, friends, dept)
         == DeptMatches(users[..k], t, friends, dept)
            + (if Admissible(t, friends, users[k].regNo) && users[k].department == dept then [users[k].regNo] else [])
  {
    assert users[..k + 1][..k] == users[..k];
  }

  /**
   * The scoring map `data` with key order `keys` is the one the specification
   * gives once the visits `vs` and the accounts `users` have been walked, `dm`
   * being the department matches met so far.
   */
  ghost predicate Tabulated(keys: seq<string>, data: map<string, Scored>, users: seq<User>,
                            vs: seq<Visit>, dm: seq<string>, t: string, friends: seq<string>, dept: string) {
    && KeysFrom(keys, vs, dm)
    && Domain(keys, data, t, friends)
    && EntriesFrom(data, users, vs, dept)
    && NoBonusOutside(users, dm, t, friends, dept)
  }

  /** The keys are the visited candidates and department matches, in first-occurrence order. */
  ghost predicate KeysFrom(keys: seq<string>, vs: seq<Visit>, dm: seq<string>) {
    && keys == Dedup(Seconds(vs) + dm)
    && (forall c :: c in keys <==> c in Seconds(vs) + dm)
  }

  /** The map has exactly the listed keys, and each is admissible. */
  ghost predicate Domain(keys: seq<string>, data: map<string, Scored>, t: string, friends: seq<string>) {
    && (forall c :: c in data <==> c in keys)
    && (forall c :: c in keys ==> Admissible(t, friends, c))
  }

  /** Every entry is the specified one, with a positive score. */
  ghost predicate EntriesFrom(data: map<string, Scored>, users: seq<User>, vs: seq<Visit>, dept: string) {
    forall c :: c in data ==> data[c] == Entry(users, vs, c, dept) && data[c].score > 0
  }

  /** An admissible account that is not a department match so far has earned no bonus. */
  ghost predicate NoBonusOutside(users: seq<User>, dm: seq<string>, t: string, friends: seq<string>, dept: string) {
    forall c :: Admissible(t, friends, c) && c !in dm ==> DeptCount(users, c, dept) == 0
  }

  /** The entry of `c` after pass 1 visits it through `friend`. */
  function Visited(data: map<string, Scored>, friend: string, c: string): Scored {
    var d := if c in data then data[c] else Scored([], 0);
    if friend !in d.mutuals then Scored(d.mutuals + [friend], d.score + 10) else d
  }

  /** The entry of `u` after pass 2 reaches it. */
  function Boosted(data: map<string, Scored>, u: User, dept: string): Scored {
    var d := if u.regNo in data then data[u.regNo] else Scored([], 0);
    if u.department == dept then d.(score := d.score + 5) else d
  }

  lemma TabulatedStart(t: string, friends: seq<string>, dept: string)
    ensures Tabulated([], map[], [], [], [], t, friends, dept)
  {
    assert Seconds([]) + [] == [];
  }

  /** One admissible visit in pass 1 keeps the map in step with the visits. */
  lemma Pass1Step(keys: seq<string>, data: map<string, Scored>, vs: seq<Visit>, friend: string, c: string,
                  t: string, friends: seq<string>, dept: string)
    requires Tabulated(keys, data, [], vs, [], t, friends, dept)
    requires Admissible(t, friends, c)
    ensures Tabulated(SetAdd(keys, c), data[c := Visited(data, friend, c)], [], vs + [(friend, c)], [], t, friends, dept)
  {
    Pass1Keys(keys, vs, friend, c);
    assert c in data <==> c in Seconds(vs) by {
      assert Seconds(vs) + [] == Seconds(vs);
    }
    Pass1Entries(data, vs, friend, c, dept);
  }

  lemma Pass1Keys(keys: seq<string>, vs: seq<Visit>, friend: string, c: string)
    requires KeysFrom(keys, vs, [])
    ensures KeysFrom(SetAdd(keys, c), vs + [(friend, c)], [])
  {
    var vs' := vs + [(friend, c)];
    SecondsSnoc(vs, (friend, c));
    assert Seconds(vs) + [] == Seconds(vs) && Seconds(vs') + [] == Seconds(vs');
    DedupSnoc(Seconds(vs), c);
  }

  lemma Pass1Entries(data: map<string, Scored>, vs: seq<Visit>, friend: string, c: string, dept: string)
    requires EntriesFrom(data, [], vs, dept)
    requires c in data <==> c in Seconds(vs)
    ensures EntriesFrom(data[c := Visited(data, friend, c)], [], vs + [(friend, c)], dept)
  {
    var vs' := vs + [(friend, c)];
    var data' := data[c := Visited(data, friend, c)];
    EntryVisited(data, vs, friend, c, dept);
    forall x | x in data' ensures data'[x] == Entry([], vs', x, dept) && data'[x].score > 0 {
      if x != c {
        EntryUnchanged(vs, (friend, c), x, dept);
        assert data'[x] == data[x];
      }
    }
  }

  lemma EntryVisited(data: map<string, Scored>, vs: seq<Visit>, friend: string, c: string, dept: string)
    requires c in data ==> data[c] == Entry([], vs, c, dept) && data[c].score > 0
    requires c in data <==> c in Seconds(vs)
    ensures Visited(data, friend, c) == Entry([], vs + [(friend, c)], c, dept)
    ensures Visited(data, friend, c).score > 0
  {
    var d := if c in data then data[c] else Scored([], 0);
    if c !in data {
      ContributorsEmpty(vs, c);
    }
    ContributorsSnoc(vs, (friend, c), c);
    DedupSnoc(ContributorsOf(vs, c), friend);
  }

  lemma EntryUnchanged(vs: seq<Visit>, p: Visit, x: string, dept: string)
    requires p.1 != x
    ensures Entry([], vs + [p], x, dept) == Entry([], vs, x, dept)
  {
    ContributorsSnoc(vs, p, x);
    assert ContributorsOf(vs, x) + [] == ContributorsOf(vs, x);
  }

  /** Pass 2 reaching an admissible account keeps the map in step. */
  lemma Pass2Step(keys: seq<string>, data: map<string, Scored>, users: seq<User>, k: nat,
                  vs: seq<Visit>, dm: seq<string>, t: string, friends: seq<string>, dept: string)
    requires k < |users| && Admissible(t, friends, users[k].regNo)
    requires Tabulated(keys, data, users[..k], vs, dm, t, friends, dept)
    ensures var u := users[k];
            var d := Boosted(data, u, dept);
            Tabulated(if d.score > 0 then SetAdd(keys, u.regNo) else keys,
                      if d.score > 0 then data[u.regNo := d] else data,
                      users[..k + 1], vs,
                      if u.department == dept then dm + [u.regNo] else dm, t, friends, dept)
  {
    var u := users[k];
    var c := u.regNo;
    DeptCountStep(users, k, dept);
    var d := Boosted(data, u, dept);
    assert d.score > 0 || (c !in data && u.department != dept);
    Pass2Keys(keys, vs, dm, c, u.department == dept, d.score > 0);
    Pass2Domain(keys, data, c, d, d.score > 0, t, friends);
    Pass2Entries(data, users, k, vs, dm, dept);
    Pass2NoBonus(users, k, dm, t, friends, dept);
  }

  lemma DeptCountStep(users: seq<User>, k: nat, dept: string)
    requires k < |users|
    ensures forall x ::
              DeptCount(users[..k + 1], x, dept)
              == DeptCount(users[..k], x, dept) + (if users[k].regNo == x && users[k].department == dept then 1 else 0)
  {
    forall x ensures DeptCount(users[..k + 1], x, dept)
      == DeptCount(users[..k], x, dept) + (if users[k].regNo == x && users[k].department == dept then 1 else 0) {
      DeptCountSnoc(users, k, x, dept);
    }
  }

  lemma Pass2Domain(keys: seq<string>, data: map<string, Scored>, c: string, d: Scored, kept: bool,
                    t: string, friends: seq<string>)
    requires Domain(keys, data, t, friends) && Admissible(t, friends, c)
    ensures Domain(if kept then SetAdd(keys, c) else keys, if kept then data[c := d] else data, t, friends)
  {
  }

  lemma Pass2NoBonus(users: seq<User>, k: nat, dm: seq<string>, t: string, friends: seq<string>, dept: string)
    requires k < |users|
    requires NoBonusOutside(users[..k], dm, t, friends, dept)
    ensures NoBonusOutside(users[..k + 1], if users[k].department == dept then dm + [users[k].regNo] else dm,
                           t, friends, dept)
  {
    DeptCountStep(users, k, dept);
  }

  lemma Pass2Keys(keys: seq<string>, vs: seq<Visit>, dm: seq<string>, c: string, matches: bool, kept: bool)
    requires KeysFrom(keys, vs, dm)
    requires matches ==> kept
    requires kept || c !in keys
    requires kept && !matches ==> c in keys
    ensures KeysFrom(if kept then SetAdd(keys, c) else keys, vs, if matches then dm + [c] else dm)
  {
    if matches {
      assert Seconds(vs) + (dm + [c]) == (Seconds(vs) + dm) + [c];
      DedupSnoc(Seconds(vs) + dm, c);
    }
  }

  lemma Pass2Entries(data: map<string, Scored>, users: seq<User>, k: nat,
                     vs: seq<Visit>, dm: seq<string>, dept: string)
    requires k < |users|
    requires EntriesFrom(data, users[..k], vs, dept)
    requires users[k].regNo !in data ==> users[k].regNo !in Seconds(vs) && DeptCount(users[..k], users[k].regNo, dept) == 0
    requires forall x :: (DeptCount(users[..k + 1], x, dept)
      == DeptCount(users[..k], x, dept) + (if users[k].regNo == x && users[k].department == dept then 1 else 0))
    ensures var d := Boosted(data, users[k], dept);
            EntriesFrom(if d.score > 0 then data[users[k].regNo := d] else data, users[..k + 1], vs, dept)
  {
    var u := users[k];
    var c := u.regNo;
    var d := Boosted(data, u, dept);
    var data' := if d.score > 0 then data[c := d] else data;
    var d0 := if c in data then data[c] else Scored([], 0);
    assert d0 == Entry(users[..k], vs, c, dept) by {
      if c !in data {
        ContributorsEmpty(vs, c);
      }
    }
    forall x | x in data' ensures data'[x] == Entry(users[..k + 1], vs, x, dept) && data'[x].score > 0 {
      if x != c {
        assert data'[x] == data[x];
      }
    }
  }

  /** Pass 2 reaching the target or one of its friends changes nothing. */
  lemma Pass2Skip(keys: seq<string>, data: map<string, Scored>, users: seq<User>, k: nat,
                  vs: seq<Visit>, dm: seq<string>, t: string, friends: seq<string>, dept: string)
    requires k < |users| && !Admissible(t, friends, users[k].regNo)
    requires Tabulated(keys, data, users[..k], vs, dm, t, friends, dept)
    ensures Tabulated(keys, data, users[..k + 1], vs, dm, t, friends, dept)
  {
    DeptCountStep(users, k, dept);
  }

  /** Once both passes are done, the map is the specified scoring table. */
  lemma TabulatedDone(keys: seq<string>, data: map<string, Scored>, users: seq<User>, g: Graph, t: string, dept: string)
    requires Tabulated(keys, data, users, Pass1(g, t), DeptMatches(users, t, FriendsIn(g, t), dept),
                       t, FriendsIn(g, t), dept)
    ensures keys == Candidates(users, g, t, dept)
    ensures data == ScoreTable(users, g, t, dept)
    ensures forall c :: c in data ==> data[c].score > 0
  {
    TabulatedTable(keys, data, users, Pass1(g, t), DeptMatches(users, t, FriendsIn(g, t), dept), t, FriendsIn(g, t), dept);
  }

  lemma TabulatedTable(keys: seq<string>, data: map<string, Scored>, users: seq<User>, vs: seq<Visit>, dm: seq<string>,
                       t: string, friends: seq<string>, dept: string)
    requires Tabulated(keys, data, users, vs, dm, t, friends, dept)
    ensures keys == Dedup(Seconds(vs) + dm)
    ensures data == map c | c in keys :: Entry(users, vs, c, dept)
    ensures forall c :: c in data ==> data[c].score > 0
  {
    var table := map c | c in keys :: Entry(users, vs, c, dept);
    assert forall c :: c in data <==> c in table;
    assert forall c :: c in data ==> data[c] == table[c];
  }

  lemma AppendAssoc(a: seq<Visit>, b: seq<Visit>, c: seq<Visit>)
    ensures (a + b) + c == a + (b + c)
  {
  }

  /** Pass 1, one friend `fof` of the target's friend `friend`. */
  method VisitCandidate(t: string, friends: seq<string>, friend: string, fof: string, dept: string,
                        keys0: seq<string>, data0: map<string, Scored>, ghost vs0: seq<Visit>)
    returns (keys: seq<string>, data: map<string, Scored>, ghost vs: seq<Visit>)
    requires Tabulated(keys0, data0, [], vs0, [], t, friends, dept)
    ensures vs == vs0 + (if Admissible(t, friends, fof) then [(friend, fof)] else [])
    ensures Tabulated(keys, data, [], vs, [], t, friends, dept)
  {
    if fof != t && fof !in friends {
      Pass1Step(keys0, data0, vs0, friend, fof, t, friends, dept);
      var d := if fof in data0 then data0[fof] else Scored([], 0);
      if friend !in d.mutuals {
        d := Scored(d.mutuals + [friend], d.score + 10);
      }
      assert d == Visited(data0, friend, fof);
      data := data0[fof := d];
      keys := SetAdd(keys0, fof);
      vs := vs0 + [(friend, fof)];
    } else {
      keys, data, vs := keys0, data0, vs0;
      assert vs0 + [] == vs0;
    }
  }

  /**
   * Pass 1 for one friend of the target: the inner loop over that friend's
   * own friends.
   */
  method VisitFriendsOf(g: Graph, t: string, friends: seq<string>, friend: string, dept: string,
                        keys0: seq<string>, data0: map<string, Scored>, ghost vs0: seq<Visit>)
    returns (keys: seq<string>, data: map<string, Scored>, ghost vs: seq<Visit>)
    requires Tabulated(keys0, data0, [], vs0, [], t, friends, dept)
    ensures vs == vs0 + VisitsOf(t, friends, friend, FriendsIn(g, friend))
    ensures Tabulated(keys, data, [], vs, [], t, friends, dept)
  {
    keys, data, vs := keys0, data0, vs0;
    var fofs := FriendsIn(g, friend);
    assert vs0 + VisitsOf(t, friends, friend, fofs[..0]) == vs0;
    for j := 0 to |fofs|
      invariant vs == vs0 + VisitsOf(t, friends, friend, fofs[..j])
      invariant Tabulated(keys, data, [], vs, [], t, friends, dept)
    {
      VisitsOfSnoc(t, friends, friend, fofs, j);
      ghost var seen := VisitsOf(t, friends, friend, fofs[..j]);
      ghost var step := if Admissible(t, friends, fofs[j]) then [(friend, fofs[j])] else [];
      keys, data, vs := VisitCandidate(t, friends, friend, fofs[j], dept, keys, data, vs);
      AppendAssoc(vs0, seen, step);
    }
    assert fofs[..|fofs|] == fofs;
  }

  /** Pass 2: the same-department bonus over the whole account list. */
  method AddDepartmentBonus(users: seq<User>, t: string, friends: seq<string>, dept: string,
                            keys0: seq<string>, data0: map<string, Scored>, ghost vs: seq<Visit>)
    returns (keys: seq<string>, data: map<string, Scored>, ghost dm: seq<string>)
    requires Tabulated(keys0, data0, [], vs, [], t, friends, dept)
    ensures dm == DeptMatches(users, t, friends, dept)
    ensures Tabulated(keys, data, users, vs, dm, t, friends, dept)
  {
    keys, data, dm := keys0, data0, [];
    assert users[..0] == [];
    for k := 0 to |users|
      invariant dm == DeptMatches(users[..k], t, friends, dept)
      invariant Tabulated(keys, data, users[..k], vs, dm, t, friends, dept)
    {
      var u := users[k];
      DeptMatchesSnoc(users, k, t, friends, dept);
      if u.regNo != t && u.regNo !in friends {
        Pass2Step(keys, data, users, k, vs, dm, t, friends, dept);
        var d := if u.regNo in data then data[u.regNo] else Scored([], 0);
        if u.department == dept {
          d := d.(score := d.score + 5);
        }
        if d.score > 0 {
          data := data[u.regNo := d];
          keys := SetAdd(keys, u.regNo);
        }
        if u.department == dept {
          dm := dm + [u.regNo];
        }
      } else {
        Pass2Skip(keys, data, users, k, vs, dm, t, friends, dept);
      }
    }
    assert users[..|users|] == users;
  }

  /**
   * The two passes of `getRecommendations` over the scoring map, for target
   * `t` whose department is `dept`. The keys are returned in insertion order.
   */
  method ScoreCandidates(users: seq<User>, g: Graph, t: string, dept: string)
    returns (keys: seq<string>, data: map<string, Scored>)
    ensures keys == Candidates(users, g, t, dept)
    ensures data == ScoreTable(users, g, t, dept)
    ensures forall c :: c in data ==> data[c].score > 0
  {
    var friends := FriendsIn(g, t);
    keys := [];
    data := map[];
    ghost var vs: seq<Visit> := [];
    TabulatedStart(t, friends, dept);
    for i := 0 to |friends|
      invariant vs == Visits(g, t, friends, friends[..i])
      invariant Tabulated(keys, data, [], vs, [], t, friends, dept)
    {
      VisitsSnoc(g, t, friends, friends, i);
      keys, data, vs := VisitFriendsOf(g, t, friends, friends[i], dept, keys, data, vs);
    }
    assert friends[..|friends|] == friends;
    ghost var dm;
    keys, data, dm := AddDepartmentBonus(users, t, friends, dept, keys, data, vs);
    TabulatedDone(keys, data, users, g, t, dept);
  }

  /** `c` is a friend of one of `t`'s friends. */
  ghost predicate Reached(g: Graph, t: string, c: string) {
    exists f :: f in FriendsIn(g, t) && c in FriendsIn(g, f)
  }

  lemma {:induction false} SecondsMembers(vs: seq<Visit>, c: string)
    ensures c in Seconds(vs) <==> exists f :: (f, c) in vs
  {
    if vs != [] {
      var init := vs[..|vs| - 1];
      var p := vs[|vs| - 1];
      assert vs == init + [p];
      SecondsMembers(init, c);
      if c in Seconds(vs) && c !in Seconds(init) {
        assert (p.0, c) in vs;
      }
      if exists f :: (f, c) in vs {
        var f :| (f, c) in vs;
        assert (f, c) in init || (f, c) == p;
      }
    }
  }

  /**
   * The scoring map has a key for `c` exactly when `c` is admissible and is
   * either a friend of a friend or a listed account of department `dept`.
   */
  lemma CandidatesMembers(users: seq<User>, g: Graph, t: string, dept: string, c: string)
    ensures c in Candidates(users, g, t, dept) <==>
      Admissible(t, FriendsIn(g, t), c) && (Reached(g, t, c) || DeptCount(users, c, dept) > 0)
  {
    var ft := FriendsIn(g, t);
    var vs := Pass1(g, t);
    DedupMembers(Seconds(vs) + DeptMatches(users, t, ft, dept), c);
    SecondsMembers(vs, c);
    forall f ensures (f, c) in vs <==> f in ft && c in FriendsIn(g, f) && Admissible(t, ft, c) {
      VisitsMembers(g, t, ft, ft, (f, c));
    }
    DeptMatchesMembers(users, t, ft, dept, c);
  }

  /** The mutual friends of an entry: each friend of `t` that has `c` as a friend, once. */
  lemma EntryMutuals(users: seq<User>, g: Graph, t: string, dept: string, c: string)
    requires Admissible(t, FriendsIn(g, t), c)
    ensures NoDup(Entry(users, Pass1(g, t), c, dept).mutuals)
    ensures forall f :: f in Entry(users, Pass1(g, t), c, dept).mutuals <==>
      f in FriendsIn(g, t) && c in FriendsIn(g, f)
  {
    var ft := FriendsIn(g, t);
    var vs := Pass1(g, t);
    forall f ensures f in Entry(users, vs, c, dept).mutuals <==> f in ft && c in FriendsIn(g, f) {
      DedupMembers(ContributorsOf(vs, c), f);
      ContributorsMembers(vs, c, f);
      VisitsMembers(g, t, ft, ft, (f, c));
    }
  }

  /** Every recommendation is the resolved entry of one key of the scoring map. */
  lemma RecommendEntry(users: seq<User>, g: Graph, t: string, x: Recommendation)
    requires x in Recommend(users, g, t)
    ensures t in RegNos(users)
    ensures var dept := FindUser(users, t).value.department;
            && x.user.regNo in Candidates(users, g, t, dept)
            && FindUser(users, x.user.regNo) == Some(x.user)
            && x == ToRecommendation(x.user, Entry(users, Pass1(g, t), x.user.regNo, dept))
  {
    var dept := FindUser(users, t).value.department;
    var rs := Resolve(users, Candidates(users, g, t, dept), ScoreTable(users, g, t, dept));
    assert x in multiset(SortDesc(rs, ScoreOf));
  }

  /** Nobody is recommended to themselves or to someone already their friend. */
  lemma RecommendExcludes(users: seq<User>, g: Graph, t: string, x: Recommendation)
    requires x in Recommend(users, g, t)
    ensures x.user.regNo != t && x.user.regNo !in FriendsIn(g, t)
    ensures x.user in users
  {
    RecommendEntry(users, g, t, x);
    CandidatesMembers(users, g, t, FindUser(users, t).value.department, x.user.regNo);
  }

  /**
   * A recommendation lists, once each, the target's friends through whom its
   * account was reached; the count is their number, and the score is ten per
   * mutual friend plus five per listed account with that key in the target's
   * department. Every score is positive.
   */
  lemma RecommendScore(users: seq<User>, g: Graph, t: string, x: Recommendation)
    requires x in Recommend(users, g, t)
    ensures t in RegNos(users)
    ensures x.mutualCount == |x.mutualFriends| && NoDup(x.mutualFriends)
    ensures forall f :: f in x.mutualFriends <==> f in FriendsIn(g, t) && x.user.regNo in FriendsIn(g, f)
    ensures x.score == 10 * x.mutualCount + 5 * DeptCount(users, x.user.regNo, FindUser(users, t).value.department)
    ensures x.score > 0
  {
    RecommendEntry(users, g, t, x);
    var dept := FindUser(users, t).value.department;
    var c := x.user.regNo;
    CandidatesMembers(users, g, t, dept, c);
    EntryMutuals(users, g, t, dept, c);
    if !Reached(g, t, c) {
      assert DeptCount(users, c, dept) > 0;
    } else {
      var f :| f in FriendsIn(g, t) && c in FriendsIn(g, f);
      assert f in x.mutualFriends;
    }
  }

  /**
   * Every admissible listed account that is a friend of a friend, or shares
   * the target's department, is recommended.
   */
  lemma RecommendComplete(users: seq<User>, g: Graph, t: string, c: string)
    requires t in RegNos(users) && c in RegNos(users)
    requires Admissible(t, FriendsIn(g, t), c)
    requires Reached(g, t, c) || DeptCount(users, c, FindUser(users, t).value.department) > 0
    ensures exists x :: x in Recommend(users, g, t) && x.user == FindUser(users, c).value
  {
    var dept := FindUser(users, t).value.department;
    CandidatesMembers(users, g, t, dept, c);
    var rs := Resolve(users, Candidates(users, g, t, dept), ScoreTable(users, g, t, dept));
    var x := ToRecommendation(FindUser(users, c).value, ScoreTable(users, g, t, dept)[c]);
    assert x in rs;
    assert x in multiset(SortDesc(rs, ScoreOf));
  }

  /**
   * Ties keep the order of the scoring map: the recommendations with any one
   * score appear in the order their keys were first inserted.
   */
  lemma RecommendTies(users: seq<User>, g: Graph, t: string, k: int)
    requires t in RegNos(users)
    ensures var dept := FindUser(users, t).value.department;
            WithKey(Recommend(users, g, t), ScoreOf, k)
              == WithKey(Resolve(users, Candidates(users, g, t, dept), ScoreTable(users, g, t, dept)), ScoreOf, k)
  {
    var dept := FindUser(users, t).value.department;
    SortDescStable(Resolve(users, Candidates(users, g, t, dept), ScoreTable(users, g, t, dept)), ScoreOf, k);
  }

  /** With unique keys an account is counted at most once for the bonus. */
  lemma {:induction false} DeptCountUnique(users: seq<User>, c: string, dept: string)
    requires UniqueRegNos(users)
    ensures DeptCount(users, c, dept) <= 1
  {
    if users != [] {
      var init := users[..|users| - 1];
      var u := users[|users| - 1];
      assert users == init + [u];
      DeptCountUnique(init, c, dept);
      if u.regNo == c && u.department == dept {
        DeptCountPositive(init, c, dept);
      }
    }
  }

  /**
   * With unique keys the department bonus is five when the recommended
   * account shares the target's department and nothing otherwise.
   */
  lemma RecommendBonus(users: seq<User>, g: Graph, t: string, x: Recommendation)
    requires UniqueRegNos(users) && x in Recommend(users, g, t)
    ensures t in RegNos(users)
    ensures x.score == 10 * x.mutualCount + (if x.user.department == FindUser(users, t).value.department then 5 else 0)
  {
    RecommendScore(users, g, t, x);
    RecommendExcludes(users, g, t, x);
    var dept := FindUser(users, t).value.department;
    var c := x.user.regNo;
    DeptCountUnique(users, c, dept);
    DeptCountPositive(users, c, dept);
    if DeptCount(users, c, dept) > 0 {
      var v :| v in users && v.regNo == c && v.department == dept;
      FindUserUnique(users, v);
    }
  }

  function RegNoOf(x: Recommendation): string {
    x.user.regNo
  }

  /** Distinct keys resolve to recommendations for distinct accounts. */
  lemma {:induction false} ResolveDistinct(users: seq<User>, keys: seq<string>, data: map<string, Scored>)
    requires NoDup(keys) && forall c :: c in keys ==> c in data
    ensures DistinctBy(Resolve(users, keys, data), RegNoOf)
  {
    if keys != [] {
      var init := keys[..|keys| - 1];
      var c := keys[|keys| - 1];
      assert keys == init + [c];
      assert NoDup(init) by {
        forall i, j | 0 <= i < j < |init| ensures init[i] != init[j] {
          assert init[i] == keys[i] && init[j] == keys[j];
        }
      }
      assert c !in init by {
        forall i | 0 <= i < |init| ensures init[i] != c {
          assert init[i] == keys[i];
        }
      }
      ResolveDistinct(users, init, data);
      var rest := Resolve(users, init, data);
      if FindUser(users, c).Some? {
        var r := rest + [ToRecommendation(FindUser(users, c).value, data[c])];
        forall i, j | 0 <= i < j < |r| ensures RegNoOf(r[i]) != RegNoOf(r[j]) {
          if j == |rest| {
            assert r[i] == rest[i] && rest[i] in rest;
          } else {
            assert r[i] == rest[i] && r[j] == rest[j];
          }
        }
      }
    }
  }

  /**
   * No account is recommended twice: the scoring map has each key once and
   * each key resolves to one account, and sorting only reorders.
   */
  lemma RecommendDistinct(users: seq<User>, g: Graph, t: string)
    ensures forall i, j :: 0 <= i < j < |Recommend(users, g, t)| ==>
              Recommend(users, g, t)[i].user.regNo != Recommend(users, g, t)[j].user.regNo
  {
    var r := Recommend(users, g, t);
    match FindUser(users, t)
    case None =>
    case Some(me) =>
      var keys := Candidates(users, g, t, me.department);
      var resolved := Resolve(users, keys, ScoreTable(users, g, t, me.department));
      ResolveDistinct(users, keys, ScoreTable(users, g, t, me.department));
      SortDescDistinct(resolved, ScoreOf, RegNoOf);
      forall i, j | 0 <= i < j < |r| ensures r[i].user.regNo != r[j].user.regNo {
        assert RegNoOf(r[i]) != RegNoOf(r[j]);
      }
  }
}
