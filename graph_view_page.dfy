/**
 * The network visualiser, without its layout and drawing: the relationship
 * lookup behind the side panel and its one action button, the add and accept
 * handlers, the node classification, the highlight set of a clicked node and
 * the activity feed.
 */
module GraphViewPage {
  import opened Collections
  import opened Sorting
  import opened Types
  import opened Friendships
  import opened Adjacency
  import opened Recommender
  import opened Storage
  import opened FriendsPage
  import opened DashboardPage

  /** `getFriendshipStatus`: the first edge, of any status, joining `me` and `target`. */
  function FindEdge(fs: seq<Friendship>, me: string, target: string): (r: Option<Friendship>)
    ensures r.None? <==> !Linked(fs, me, target)
    ensures r.Some? ==> r.value in fs && Joins(r.value, me, target)
    ensures r.Some? ==> exists i :: 0 <= i < |fs| && fs[i] == r.value
                                   && forall j :: 0 <= j < i ==> !Joins(fs[j], me, target)
  {
    var r := FindFirst(fs, (f: Friendship) => (f.user1 == me && f.user2 == target) || (f.user2 == me && f.user1 == target));
    r
  }

  /** The class of a node; each node has exactly one. */
  datatype NodeType = Me | Friend | Recommended | Other

  /** The side-panel button. */
  datatype Button = AddFriend | RequestSent | AcceptRequest | Connected

  /**
   * The button under a selected node: none for the own node; "add" when no
   * edge was found; for a pending edge "sent" or "accept" by who requested
   * it; "connected" otherwise.
   */
  function PanelButton(kind: NodeType, rel: Option<Friendship>, me: string): (b: Option<Button>)
    ensures b.None? <==> kind == Me
    ensures b == Some(AddFriend) <==> kind != Me && rel.None?
    ensures b == Some(AcceptRequest) <==> kind != Me && rel.Some? && rel.value.status == Pending && rel.value.requester != me
  {
    if kind == Me then None
    else match rel
      case None => Some(AddFriend)
      case Some(f) =>
        if f.status == Pending then
          if f.requester == me then Some(RequestSent) else Some(AcceptRequest)
        else Some(Connected)
  }

  /** The 'add' action: one pending edge from `me` is appended, with no check of its own. */
  function AddEdges(fs: seq<Friendship>, me: string, target: string): (r: seq<Friendship>)
    ensures r == fs + [NewRequest(me, target)]
  {
    fs + [Friendship(me, target, Pending, me)]
  }

  /** Without the button's guard, 'add' can give a pair a second edge. */
  lemma AddUnguardedBreaksPairs()
    ensures var fs := [Friendship("a", "b", Pending, "a")];
            UniquePairs(fs) && !UniquePairs(AddEdges(fs, "b", "a"))
  {
    var r := AddEdges([Friendship("a", "b", Pending, "a")], "b", "a");
    assert SamePair(r[0], r[1]);
  }

  /**
   * Behind the guard (the button reads "add" only when no edge was found),
   * 'add' is the dashboard's request and keeps the pair invariant.
   */
  lemma AddGuardedKeepsPairs(fs: seq<Friendship>, me: string, target: string, kind: NodeType)
    requires UniquePairs(fs)
    requires PanelButton(kind, FindEdge(fs, me, target), me) == Some(AddFriend)
    ensures AddEdges(fs, me, target) == SendRequestEdges(fs, me, target)
    ensures UniquePairs(AddEdges(fs, me, target))
  {
    SendRequestKeepsPairs(fs, me, target);
  }

  /** The 'accept' action: every edge between the two, in either orientation, becomes accepted. */
  function AcceptBetween(fs: seq<Friendship>, me: string, target: string): (r: seq<Friendship>)
    ensures |r| == |fs|
    ensures forall i :: 0 <= i < |fs| ==>
      && r[i].user1 == fs[i].user1 && r[i].user2 == fs[i].user2 && r[i].requester == fs[i].requester
      && r[i].status == (if Joins(fs[i], target, me) then Accepted else fs[i].status)
  {
    MapSeq(fs, (f: Friendship) => if (f.user1 == target && f.user2 == me) || (f.user2 == target && f.user1 == me)
                    then f.(status := Accepted) else f)
  }

  /**
   * After 'accept' the two are friends exactly when some edge joined them, and
   * every other pair is as before; the pair invariant is kept.
   */
  lemma AcceptBetweenBefriends(fs: seq<Friendship>, me: string, target: string, a: string, b: string)
    ensures Befriended(AcceptBetween(fs, me, target), a, b) <==>
      Befriended(fs, a, b) || (exists f :: f in fs && Joins(f, target, me) && Joins(f, a, b))
  {
    var r := AcceptBetween(fs, me, target);
    if Befriended(r, a, b) {
      var g :| g in r && g.status == Accepted && Joins(g, a, b);
      var i :| 0 <= i < |r| && r[i] == g;
      assert fs[i] in fs && Joins(fs[i], a, b);
    }
    if Befriended(fs, a, b) {
      var f :| f in fs && f.status == Accepted && Joins(f, a, b);
      var i :| 0 <= i < |fs| && fs[i] == f;
      assert r[i] in r && r[i].status == Accepted && Joins(r[i], a, b);
    }
    if exists f :: f in fs && Joins(f, target, me) && Joins(f, a, b) {
      var f :| f in fs && Joins(f, target, me) && Joins(f, a, b);
      var i :| 0 <= i < |fs| && fs[i] == f;
      assert r[i] in r && r[i].status == Accepted && Joins(r[i], a, b);
    }
  }

  lemma AcceptBetweenKeepsPairs(fs: seq<Friendship>, me: string, target: string)
    requires UniquePairs(fs)
    ensures UniquePairs(AcceptBetween(fs, me, target))
  {
    var r := AcceptBetween(fs, me, target);
    forall i, j | 0 <= i < j < |r| ensures !SamePair(r[i], r[j]) {
      assert !SamePair(fs[i], fs[j]);
    }
  }

  /**
   * The two accept handlers differ: on an edge that runs from `me` to the
   * other account, the relationship page changes nothing while the
   * visualiser accepts it.
   */
  lemma AcceptHandlersDiffer()
    ensures var fs := [Friendship("me", "s", Pending, "s")];
            && AcceptFrom(fs, "s", "me") == fs
            && Befriended(AcceptBetween(fs, "me", "s"), "me", "s")
  {
    var fs := [Friendship("me", "s", Pending, "s")];
    AcceptFromIgnoresReverse(fs, "s", "me");
    assert AcceptBetween(fs, "me", "s")[0] == Friendship("me", "s", Accepted, "s");
  }

  /**
   * The class of account `u`: the own node first, then a friend (adjacent in
   * the graph service's map), then a recommended account, then the rest.
   */
  function NodeTypeOf(u: User, me: string, g: Graph, recs: seq<Recommendation>): (k: NodeType)
    ensures k == Me <==> u.regNo == me
    ensures k == Friend <==> u.regNo != me && AdjacentIn(g, u.regNo, me)
    ensures k == Recommended <==> u.regNo != me && !AdjacentIn(g, u.regNo, me) && exists x :: x in recs && x.user.regNo == u.regNo
  {
    if u.regNo == me then Me
    else if AdjacentIn(g, u.regNo, me) then Friend
    else if FindFirst(recs, (x: Recommendation) => x.user.regNo == u.regNo).Some? then Recommended
    else Other
  }

  /**
   * With the map and the recommendations of the graph service, the priority
   * never hides a recommendation: every recommended listed account is
   * classed `Recommended`, and every friend `Friend`.
   */
  lemma NodeTypesFromService(users: seq<User>, fs: seq<Friendship>, me: string, u: User)
    requires u in users
    ensures var g := BuiltGraph(users, fs);
            (exists x :: x in Recommend(users, g, me) && x.user.regNo == u.regNo) ==>
              NodeTypeOf(u, me, g, Recommend(users, g, me)) == Recommended
    ensures var g := BuiltGraph(users, fs);
            u.regNo != me && Befriended(fs, u.regNo, me) ==> NodeTypeOf(u, me, g, Recommend(users, g, me)) == Friend
  {
    var g := BuiltGraph(users, fs);
    var recs := Recommend(users, g, me);
    if exists x :: x in recs && x.user.regNo == u.regNo {
      var x :| x in recs && x.user.regNo == u.regNo;
      RecommendExcludes(users, g, me, x);
      RecommendEntry(users, g, me, x);
      BuiltGraphSymmetric(users, fs, me, u.regNo);
    }
  }

  /** An edge of the drawing: a friendship or a recommendation. */
  datatype LinkKind = FriendshipLink | RecommendationLink
  datatype Link = Link(source: string, target: string, kind: LinkKind)

  /** The links drawn: one per accepted edge, then one from `me` to each recommendation. */
  function Links(accepted: seq<Friendship>, me: string, recs: seq<Recommendation>): (r: seq<Link>)
    ensures |r| == |accepted| + |recs|
    ensures forall i :: 0 <= i < |accepted| ==> r[i] == Link(accepted[i].user1, accepted[i].user2, FriendshipLink)
    ensures forall i :: 0 <= i < |recs| ==> r[|accepted| + i] == Link(me, recs[i].user.regNo, RecommendationLink)
  {
    FriendLinks(accepted) + RecommendationLinks(me, recs)
  }

  function FriendLinks(accepted: seq<Friendship>): (r: seq<Link>)
    ensures |r| == |accepted|
    ensures forall i :: 0 <= i < |accepted| ==>
      r[i].source == accepted[i].user1 && r[i].target == accepted[i].user2 && r[i].kind == FriendshipLink
  {
    MapSeq(accepted, (f: Friendship) => Link(f.user1, f.user2, FriendshipLink))
  }

  function RecommendationLinks(me: string, recs: seq<Recommendation>): (r: seq<Link>)
    ensures |r| == |recs|
    ensures forall i :: 0 <= i < |recs| ==>
      r[i].source == me && r[i].target == recs[i].user.regNo && r[i].kind == RecommendationLink
  {
    MapSeq(recs, (x: Recommendation) => Link(me, x.user.regNo, RecommendationLink))
  }

  /** `l` touches `id`, and `y` is its other end. */
  predicate Incident(l: Link, id: string, y: string) {
    (l.source == id && l.target == y) || (l.target == id && l.source == y)
  }

  /** The highlight set after walking `links`, in insertion order. */
  function Highlighted(links: seq<Link>, id: string): (r: seq<string>)
    ensures NoDup(r)
    ensures r != [] && r[0] == id
  {
    if links == [] then [id]
    else
      var l := links[|links| - 1];
      var s := Highlighted(links[..|links| - 1], id);
      var s1 := if l.source == id then SetAdd(s, l.target) else s;
      if l.target == id then SetAdd(s1, l.source) else s1
  }

  /** Some link of `links` touches `id` with `y` at its other end. */
  predicate IncidentIn(links: seq<Link>, id: string, y: string) {
    exists l :: l in links && Incident(l, id, y)
  }

  /** The highlight set is duplicate-free: the node and every other end of an incident link. */
  lemma {:induction false} HighlightedMembers(links: seq<Link>, id: string, y: string)
    ensures NoDup(Highlighted(links, id))
    ensures y in Highlighted(links, id) <==> y == id || IncidentIn(links, id, y)
  {
    if links != [] {
      var init := links[..|links| - 1];
      var l := links[|links| - 1];
      assert links == init + [l];
      HighlightedMembers(init, id, y);
      assert forall k :: k in links <==> k in init || k == l;
      assert y in Highlighted(links, id) <==> y in Highlighted(init, id) || Incident(l, id, y);
    }
  }

  /** `updateHighlight`: the node itself, then the other end of every incident link. */
  method UpdateHighlight(links: seq<Link>, id: string) returns (neighbors: seq<string>)
    ensures neighbors == Highlighted(links, id)
  {
    neighbors := [id];
    for k := 0 to |links|
      invariant neighbors == Highlighted(links[..k], id)
    {
      var l := links[k];
      assert links[..k + 1][..k] == links[..k];
      if l.source == id {
        neighbors := SetAdd(neighbors, l.target);
      }
      if l.target == id {
        neighbors := SetAdd(neighbors, l.source);
      }
    }
    assert links[..|links|] == links;
  }

  /**
   * On the drawn links, a clicked node lights up itself, its friends and,
   * for the own node, its recommendations; a recommended node also lights up
   * the own node.
   */
  lemma HighlightOnDrawing(fs: seq<Friendship>, me: string, recs: seq<Recommendation>, id: string, y: string)
    ensures y in Highlighted(Links(AcceptedOnly(fs), me, recs), id) <==>
      || y == id
      || Befriended(fs, id, y)
      || (id == me && exists x :: x in recs && x.user.regNo == y)
      || (y == me && exists x :: x in recs && x.user.regNo == id)
  {
    var fl := FriendLinks(AcceptedOnly(fs));
    var rl := RecommendationLinks(me, recs);
    HighlightedMembers(fl + rl, id, y);
    IncidentInAppend(fl, rl, id, y);
    FriendLinksIncident(AcceptedOnly(fs), id, y);
    RecommendationLinksIncident(me, recs, id, y);
  }

  lemma IncidentInAppend(a: seq<Link>, b: seq<Link>, id: string, y: string)
    ensures IncidentIn(a + b, id, y) <==> IncidentIn(a, id, y) || IncidentIn(b, id, y)
  {
    if IncidentIn(a + b, id, y) {
      var l :| l in a + b && Incident(l, id, y);
    }
  }

  /** The friendship links touching `id` end exactly at the accounts an edge joins it to. */
  lemma FriendLinksIncident(accepted: seq<Friendship>, id: string, y: string)
    ensures IncidentIn(FriendLinks(accepted), id, y) <==> Linked(accepted, id, y)
  {
    var fl := FriendLinks(accepted);
    if IncidentIn(fl, id, y) {
      var l :| l in fl && Incident(l, id, y);
      var i :| 0 <= i < |fl| && fl[i] == l;
      assert accepted[i] in accepted && Joins(accepted[i], id, y);
    }
    if Linked(accepted, id, y) {
      var f :| f in accepted && Joins(f, id, y);
      var i :| 0 <= i < |accepted| && accepted[i] == f;
      assert fl[i] in fl && Incident(fl[i], id, y);
    }
  }

  /** The recommendation links touching `id` join the own node and the recommended ones. */
  lemma RecommendationLinksIncident(me: string, recs: seq<Recommendation>, id: string, y: string)
    ensures IncidentIn(RecommendationLinks(me, recs), id, y)
            <==> (id == me && exists x :: x in recs && x.user.regNo == y)
                 || (y == me && exists x :: x in recs && x.user.regNo == id)
  {
    var rl := RecommendationLinks(me, recs);
    if IncidentIn(rl, id, y) {
      var l :| l in rl && Incident(l, id, y);
      var i :| 0 <= i < |rl| && rl[i] == l;
      assert recs[i] in recs;
    }
    if id == me && exists x :: x in recs && x.user.regNo == y {
      var x :| x in recs && x.user.regNo == y;
      var i :| 0 <= i < |recs| && recs[i] == x;
      assert rl[i] in rl && Incident(rl[i], id, y);
    }
    if y == me && exists x :: x in recs && x.user.regNo == id {
      var x :| x in recs && x.user.regNo == id;
      var i :| 0 <= i < |recs| && recs[i] == x;
      assert rl[i] in rl && Incident(rl[i], id, y);
    }
  }

  /** One line of the activity feed. */
  datatype ActivityKind = PostActivity | MessageActivity | ConnectionActivity
  datatype ActivityLog = ActivityLog(id: string, kind: ActivityKind, content: string, timestamp: int, user: string)

  function TimestampOf(a: ActivityLog): int {
    a.timestamp
  }

  /** `slice(-n)` for a positive `n`: the last `n` elements, or all of them. */
  function LastN<T>(s: seq<T>, n: nat): (r: seq<T>)
    requires n > 0
    ensures |r| == if |s| < n then |s| else n
    ensures s == s[..|s| - |r|] + r
  {
    s[if |s| < n then 0 else |s| - n..]
  }

  /** `s.substring(0, n)`. */
  function Prefix(s: string, n: nat): (r: string)
    ensures r <= s
    ensures |r| == if |s| < n then |s| else n
  {
    s[..if |s| < n then |s| else n]
  }

  /** The name of the first account with key `reg`, or `fallback` when there is none or it is empty. */
  function NameOr(users: seq<User>, reg: string, fallback: string): (r: string)
    ensures r == fallback || exists u :: u in users && u.regNo == reg && u.name == r
    ensures fallback != "" ==> r != ""
    ensures FindUser(users, reg).Some? && FindUser(users, reg).value.name != "" ==> r == FindUser(users, reg).value.name
    ensures FindUser(users, reg).None? || FindUser(users, reg).value.name == "" ==> r == fallback
  {
    match FindUser(users, reg)
    case Some(u) => if u.name != "" then u.name else fallback
    case None => fallback
  }

  /** The number a string of decimal digits denotes. */
  function DigitsValue(s: string): int {
    if s == [] then 0 else 10 * DigitsValue(s[..|s| - 1]) + (s[|s| - 1] as int - '0' as int)
  }

  /** `${n}`: the decimal numeral of a non-negative integer, without leading zeros. */
  function Decimal(n: nat): (r: string)
    ensures r != [] && forall k :: 0 <= k < |r| ==> '0' <= r[k] <= '9'
    ensures r[0] == '0' ==> n == 0
    ensures DigitsValue(r) == n
    decreases n
  {
    if n < 10 then [('0' as int + n) as char]
    else
      var r := Decimal(n / 10) + [('0' as int + n % 10) as char];
      assert r[..|r| - 1] == Decimal(n / 10);
      r
  }

  function PostLog(p: Post): (a: ActivityLog)
    ensures a.kind == PostActivity && a.timestamp == p.timestamp && a.user == p.authorName
  {
    ActivityLog("p-" + p.id, PostActivity, "Shared a bulletin: \"" + Prefix(p.content, 40) + "...\"",
                p.timestamp, p.authorName)
  }

  function MessageLog(users: seq<User>, m: Message): (a: ActivityLog)
    ensures a.kind == MessageActivity && a.timestamp == m.timestamp && a.user != ""
    ensures a.user == NameOr(users, m.sender, "Someone") && a.id == "m-" + m.id
  {
    ActivityLog("m-" + m.id, MessageActivity, "Transmitted a data packet (Message).",
                m.timestamp, NameOr(users, m.sender, "Someone"))
  }

  /** The `i`-th of the last five accepted edges, dated `i` million milliseconds before `now`. */
  function ConnectionLog(users: seq<User>, f: Friendship, i: nat, now: int): (a: ActivityLog)
    ensures a.kind == ConnectionActivity && a.timestamp == now - i * 1000000 && a.user != ""
    ensures a.user == NameOr(users, f.user1, "User") && a.id == "c-" + Decimal(i)
  {
    ActivityLog("c-" + Decimal(i), ConnectionActivity, "Formed an edge with " + NameOr(users, f.user2, "User") + ".",
                now - i * 1000000, NameOr(users, f.user1, "User"))
  }

  function ConnectionLogs(users: seq<User>, fs: seq<Friendship>, now: int): (r: seq<ActivityLog>)
    ensures |r| == |fs|
    ensures forall i :: 0 <= i < |fs| ==> r[i] == ConnectionLog(users, fs[i], i, now)
  {
    seq(|fs|, i requires 0 <= i < |fs| => ConnectionLog(users, fs[i], i, now))
  }

  /** Every item the feed draws from: all posts, the last five messages, the last five accepted edges. */
  function ActivitySources(users: seq<User>, posts: seq<Post>, msgs: seq<Message>, accepted: seq<Friendship>, now: int)
    : (r: seq<ActivityLog>)
    ensures |r| == |posts| + (if |msgs| < 5 then |msgs| else 5) + (if |accepted| < 5 then |accepted| else 5)
  {
    MapSeq(posts, PostLog) + MapSeq(LastN(msgs, 5), (m: Message) => MessageLog(users, m))
    + ConnectionLogs(users, LastN(accepted, 5), now)
  }

  /**
   * The combined list holds exactly the item of every post, the items of the
   * last five messages, and the items of the last five accepted edges.
   */
  lemma ActivitySourcesMembers(users: seq<User>, posts: seq<Post>, msgs: seq<Message>, accepted: seq<Friendship>,
                               now: int, a: ActivityLog)
    ensures a in ActivitySources(users, posts, msgs, accepted, now) <==>
      || (exists p :: p in posts && a == PostLog(p))
      || (exists m :: m in LastN(msgs, 5) && a == MessageLog(users, m))
      || (exists i :: 0 <= i < |LastN(accepted, 5)| && a == ConnectionLog(users, LastN(accepted, 5)[i], i, now))
  {
    var ps := MapSeq(posts, PostLog);
    var ms := MapSeq(LastN(msgs, 5), (m: Message) => MessageLog(users, m));
    var cs := ConnectionLogs(users, LastN(accepted, 5), now);
    assert ActivitySources(users, posts, msgs, accepted, now) == ps + ms + cs;
    assert a in ps + ms + cs <==> a in ps || a in ms || a in cs;
    MapSeqMembers(posts, PostLog, a);
    MessageItemsMembers(users, LastN(msgs, 5), a);
    ConnectionLogsMembers(users, LastN(accepted, 5), now, a);
  }

  lemma MessageItemsMembers(users: seq<User>, msgs: seq<Message>, a: ActivityLog)
    ensures a in MapSeq(msgs, (m: Message) => MessageLog(users, m)) <==> exists m :: m in msgs && a == MessageLog(users, m)
  {
    MapSeqMembers(msgs, (m: Message) => MessageLog(users, m), a);
  }

  lemma ConnectionLogsMembers(users: seq<User>, fs: seq<Friendship>, now: int, a: ActivityLog)
    ensures a in ConnectionLogs(users, fs, now) <==> exists i :: 0 <= i < |fs| && a == ConnectionLog(users, fs[i], i, now)
  {
    var cs := ConnectionLogs(users, fs, now);
    if a in cs {
      var i :| 0 <= i < |cs| && cs[i] == a;
    }
    if exists i :: 0 <= i < |fs| && a == ConnectionLog(users, fs[i], i, now) {
      var i :| 0 <= i < |fs| && a == ConnectionLog(users, fs[i], i, now);
      assert cs[i] == a;
    }
  }

  /** The feed: the sources sorted by descending timestamp (stable), then cut to ten. */
  function Activity(users: seq<User>, posts: seq<Post>, msgs: seq<Message>, accepted: seq<Friendship>, now: int)
    : (r: seq<ActivityLog>)
    ensures |r| <= 10
    ensures SortedDesc(r, TimestampOf)
  {
    var all := ActivitySources(users, posts, msgs, accepted, now);
    NewestSpec(all, 10);
    Newest(all, 10)
  }

  /** The `n` newest items, by a stable sort on descending timestamp. */
  function Newest(all: seq<ActivityLog>, n: nat): seq<ActivityLog> {
    var sorted := SortDesc(all, TimestampOf);
    sorted[..if |sorted| < n then |sorted| else n]
  }

  lemma NewestSpec(all: seq<ActivityLog>, n: nat)
    ensures var r := Newest(all, n);
            && |r| == (if |all| < n then |all| else n)
            && SortedDesc(r, TimestampOf)
            && multiset(r) <= multiset(all)
            && forall x, y :: x in r && y in multiset(all) - multiset(r) ==> x.timestamp >= y.timestamp
  {
    var sorted := SortDesc(all, TimestampOf);
    var m := if |sorted| < n then |sorted| else n;
    SortedPrefixHighest(sorted, TimestampOf, m);
    forall x, y | x in sorted[..m] && y in multiset(all) - multiset(sorted[..m]) ensures x.timestamp >= y.timestamp {
      assert TimestampOf(x) >= TimestampOf(y);
    }
  }

  /**
   * At most ten items, newest first, each drawn from the sources, and none
   * left out is newer than one shown.
   */
  lemma ActivityNewest(users: seq<User>, posts: seq<Post>, msgs: seq<Message>, accepted: seq<Friendship>, now: int)
    ensures var r := Activity(users, posts, msgs, accepted, now);
            var all := ActivitySources(users, posts, msgs, accepted, now);
            && |r| == (if |all| < 10 then |all| else 10)
            && SortedDesc(r, TimestampOf)
            && multiset(r) <= multiset(all)
            && forall x, y :: x in r && y in multiset(all) - multiset(r) ==> x.timestamp >= y.timestamp
  {
    NewestSpec(ActivitySources(users, posts, msgs, accepted, now), 10);
  }

  /** The connection items are dated strictly newest first. */
  lemma ConnectionLogsDescending(users: seq<User>, fs: seq<Friendship>, now: int)
    ensures forall i, j :: 0 <= i < j < |fs| ==>
      ConnectionLogs(users, fs, now)[i].timestamp > ConnectionLogs(users, fs, now)[j].timestamp
  {
  }

  /** The part of the page's state the handlers touch. */
  class GraphViewState {
    const me: string
    /** Bumped by every action so that the panel and the feed are recomputed. */
    var friendshipVersion: int
    /** The feed shown beside the graph. */
    var activity: seq<ActivityLog>

    constructor (me: string)
      ensures this.me == me && friendshipVersion == 0 && activity == []
    {
      this.me := me;
      friendshipVersion := 0;
      activity := [];
    }

    /**
     * The effect run on every version: the feed from the stored posts and
     * messages and the accepted edges, with one clock reading `now`.
     */
    method RefreshActivity(store: Store, now: int)
      modifies this`activity
      ensures activity == Activity(store.users, store.posts, store.messages, AcceptedOnly(store.friendships), now)
    {
      var friendships := AcceptedOnly(store.friendships);
      var combined := Newest(ActivitySources(store.users, store.posts, store.messages, friendships, now), 10);
      activity := combined;
    }

    /** `handleFriendAction`: 'add' when `add`, 'accept' otherwise. */
    method HandleFriendAction(store: Store, target: string, add: bool)
      modifies this`friendshipVersion, store`friendships
      ensures store.friendships == if add then AddEdges(old(store.friendships), me, target)
                                   else AcceptBetween(old(store.friendships), me, target)
      ensures friendshipVersion == old(friendshipVersion) + 1
    {
      var allFs := store.friendships;
      if add {
        var newRequest := Friendship(me, target, Pending, me);
        store.friendships := allFs + [newRequest];
      } else {
        store.friendships := AcceptBetween(allFs, me, target);
      }
      friendshipVersion := friendshipVersion + 1;
    }
  }
}
