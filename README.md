# UAF-Nexus social graph, modelled in Dafny

UAF-Nexus is a campus social network. Students log in with their
registration number, which is also the key of their account. They send,
accept, reject and remove friend requests. They see recommended
connections, chat with friends and look at their network drawn as a graph.
Everything is kept in the browser's storage as whole lists: the accounts,
the friendship edges (`user1`, `user2`, `status`, `requester`), the
messages and the posts.

This project models the core of that system:

- the graph service (`services/graphService.ts`): it rebuilds an adjacency
  map from the accepted edges, answers friend, mutual-friend and adjacency
  queries, and scores friends-of-friends and same-department accounts as
  recommendations;
- the five pages that read and change the edge, message and account lists:
  - the relationship page (`Friends.tsx`): friend list, incoming requests,
    accept, reject, remove;
  - the dashboard (`Dashboard.tsx`): top four recommendations, the two
    counters, the request handler;
  - the graph page (`GraphView.tsx`): node classes, links, neighbourhood
    highlight, the activity feed, the node panel and its two actions;
  - the messaging page (`Chat.tsx`): partners, unread counters, the open
    conversation, marking read, sending, search;
  - the login page (`Login.tsx`): credential lookup, and the CSV import of
    accounts with its merge.

How the model represents the source:

- The store is a `Storage.Store` object. Its fields are read whole and
  replaced whole, as the storage service does.
- The graph service is a class holding its adjacency map.
- Each page is a class holding the state its handlers update.
- What each handler computes is a function over lists. Lemmas state what
  that function means: who is befriended afterwards, which edges remain,
  whether the one-edge-per-pair invariant is kept.
- A JavaScript `Set` or `Map` is a sequence without duplicates in insertion
  order, so iteration order (the order of mutual friends, ties in the
  ranking) is modelled exactly.
- `Array.prototype.sort` is a stable sort: `Sorting.SortDesc`. An ascending
  sort is a descending sort on the negated key.
- The clock, generated ids and the answer to `confirm()` are parameters.

## Behaviour of the code worth knowing

- Requests are not checked for a self-pair or an unknown account on any
  page.
- Mutual friends are listed in the iteration order of the first account's
  friends.
- Recommendations with equal scores keep the order in which their keys
  first entered the scoring map.
- Only the dashboard refuses to add a second edge for a pair.
  - The graph page's "add" appends unconditionally.
    `GraphViewPage.AddUnguardedBreaksPairs` shows that this breaks the
    invariant.
  - The panel offers "add" only when no edge exists.
    `GraphViewPage.AddGuardedKeepsPairs` shows that behind this guard "add"
    is the dashboard's request.
- The two accept handlers differ:
  - The graph page's accept flips every edge between the pair, in either
    orientation.
  - The relationship page's accept flips only the edge from the sender.
  - `GraphViewPage.AcceptHandlersDiffer` exhibits the difference.
- The department bonus is added once per entry of the account list.
  - With duplicate keys an account gets it more than once.
  - With unique keys it is at most 5 (`Recommender.RecommendBonus`).
  - A friend-of-friend in the same department scores 15: 10 for the mutual
    friend and 5 for the department (`Recommender.RecommendBonus`).
- The import reports the number of rows parsed, not the number of accounts
  added (`LoginPage.ImportOvercounts`).

## Model

| member | source | states |
|---|---|---|
| Types.FindUser | services/graphService.ts:89 | `find` by key: finds an account iff one has that key; the one found is the first with that key |
| Types.FindUserUnique | services/graphService.ts:89 | with unique keys, looking up an account's key returns that account |
| Types.FindUserAt | services/graphService.ts:89 | the first index carrying a key is the account `find` returns |
| Types.FindUserAppend | pages/Login.tsx:55-60 | lookup in a concatenation: the first list wins when it holds the key |
| Text.Trim | pages/Login.tsx:19 | `trim`: the slice `s[a..b]` with only white space before `a` and after `b`; empty iff the text is all white space, otherwise it starts and ends with a non-space |
| Text.LeadingSpace | pages/Login.tsx:19 | the length of the white space the text starts with: all of it white space, and the next character not |
| Text.TrailingSpace | pages/Login.tsx:19 | the length of the white space the text ends with: all of it white space, and the character before not |
| Text.TrimIdempotent | pages/Login.tsx:41 | trimming twice is trimming once |
| Text.Includes | pages/Chat.tsx:113-114 | `includes`: true iff the query occurs at some position |
| Text.Split | pages/Login.tsx:36 | `split`: at least one part, and no part contains the separator |
| Text.JoinSplit | pages/Login.tsx:36 | joining the parts of a split with the separator gives back the text |
| Text.SplitJoin | pages/Login.tsx:41 | splitting the join of separator-free parts gives back the parts |
| Collections.SetAdd | services/graphService.ts:20-21 | `Set.add`: membership is old members plus the new one; no duplicates; unchanged if present, appended otherwise |
| Collections.DedupMembers | services/graphService.ts:87 | the distinct keys in first-insertion order have the same members as the list |
| Collections.DedupSnoc | services/graphService.ts:65 | inserting a key into a map's key order is `Set.add` on that order |
| Collections.DedupOfNoDup | services/graphService.ts:87 | a list without duplicates is its own key order |
| Collections.Filter | services/graphService.ts:13 | `filter`: keeps exactly the elements passing the test, in order, each with its full multiplicity, and drops every other, no duplicates introduced |
| Collections.FilterAppend | pages/Friends.tsx:48 | filtering distributes over concatenation |
| Collections.FilterAll | pages/Chat.tsx:112-115 | a filter that every element passes keeps the whole list |
| Collections.FilterNone | pages/Friends.tsx:48 | a filter that no element passes gives the empty list |
| Collections.FindFirst | services/graphService.ts:49 | `find`: none iff no element passes; otherwise the first element that passes |
| Collections.FindFirstAgree | pages/Login.tsx:19 | two tests that agree on the list find the same element |
| Collections.MapSeqMembers | pages/Friends.tsx:21-24 | an element is in a mapped list iff it is the image of a member |
| Sorting.SortDesc | services/graphService.ts:98 | the sort: descending by key, and a permutation of its input |
| Sorting.SortDescStable | services/graphService.ts:98 | the sort is stable: elements with equal keys keep their input order |
| Sorting.SortedPrefixHighest | pages/Dashboard.tsx:17 | a prefix of a descending list scores at least as much as every element left out |
| Friendships.AcceptedOnly | services/graphService.ts:13 | the accepted edges; a pair is linked among them iff it is befriended |
| Friendships.NewRequest | pages/Dashboard.tsx:40-45 | a new request is pending, sent by `me`, and joins the two |
| Friendships.FriendRegNos | pages/Friends.tsx:19-24 | the partner keys: a key is listed iff an accepted edge joins it to `me` |
| Friendships.FriendRegNosCount | pages/Dashboard.tsx:20-22 | one partner key per accepted edge touching `me` |
| Friendships.FriendRegNosUnique | pages/Friends.tsx:19-24 | with one edge per pair, no partner is listed twice |
| Friendships.UniquePairsFilter | pages/Friends.tsx:58 | deleting edges keeps the one-edge-per-pair invariant |
| Adjacency.AddEdge | services/graphService.ts:20-21 | adding an edge's far end to one adjacency set: members are the old ones plus the far end of an edge touching `x` |
| Adjacency.Neighbours | services/graphService.ts:19-22 | a key's adjacency set holds exactly the keys some edge joins to it, without duplicates |
| Adjacency.BuiltGraph | services/graphService.ts:12-23 | `buildGraph`: a key per account, and `y` is adjacent to `x` iff an accepted edge joins them |
| Adjacency.FriendsIn | services/graphService.ts:25-28 | `getFriends`: empty for an unknown key, otherwise the adjacency set |
| Adjacency.MutualIn | services/graphService.ts:30-35 | `getMutualFriends`: the friends of both, in the first account's order, without duplicates |
| Adjacency.AdjacentIn | services/graphService.ts:101-104 | `areFriends`: true iff `b` is in `a`'s adjacency set |
| Adjacency.BuiltGraphSymmetric | services/graphService.ts:19-22 | between listed accounts adjacency is symmetric |
| Adjacency.BuiltGraphDangling | services/graphService.ts:20-21 | an accepted edge to an unlisted key is seen from the listed end only |
| Adjacency.BuiltGraphIgnoresPending | services/graphService.ts:13 | a pending edge does not change the graph |
| Adjacency.BuiltGraphSelfEdge | services/graphService.ts:19-22 | an accepted self-pair makes an account its own friend |
| Adjacency.BuiltGraphNoSelfLoop | services/graphService.ts:19-22 | without self-pairs nobody is their own friend |
| Adjacency.QueriesOnUnknown | services/graphService.ts:27 | an unknown key has no friends, no mutual friends and no adjacency |
| Adjacency.MutualInBuilt | services/graphService.ts:30-35 | the mutual friends of two listed accounts are the keys befriended with both |
| Adjacency.NeighboursAreFriendRegNos | services/graphService.ts:19-22 | the adjacency set of `me` is the page's partner list without repeats |
| Adjacency.BuiltGraphFriendsAgree | services/graphService.ts:25-28 | with one edge per pair, `getFriends` returns the relationship page's partner keys in the same order |
| Recommender.VisitsOfMembers | services/graphService.ts:56-58 | pass 1 visits a friend-of-friend iff it is neither the target nor a friend |
| Recommender.VisitsMembers | services/graphService.ts:54-68 | the visits of pass 1 are exactly the admissible (friend, friend-of-friend) pairs |
| Recommender.ContributorsMembers | services/graphService.ts:59-64 | a friend contributes to a candidate iff pass 1 visited the candidate through it |
| Recommender.ContributorsEmpty | services/graphService.ts:59 | no contributor iff the candidate was never visited |
| Recommender.SecondsMembers | services/graphService.ts:54-68 | a key enters the map in pass 1 iff some visit reached it |
| Recommender.DeptCountPositive | services/graphService.ts:76-78 | the bonus count is positive iff a listed account with that key shares the department |
| Recommender.DeptMatchesMembers | services/graphService.ts:71-85 | pass 2 adds a key iff it is admissible and shares the department |
| Recommender.CandidatesMembers | services/graphService.ts:54-85 | a key is scored iff it is admissible and is a friend-of-friend or shares the department |
| Recommender.EntryMutuals | services/graphService.ts:59-64 | a candidate's mutual list holds exactly the friends adjacent to it, once each |
| Recommender.Resolve | services/graphService.ts:87-97 | each entry becomes a recommendation for the account found; entries without an account are dropped |
| Recommender.ToRecommendation | services/graphService.ts:87-96 | a recommendation carries the account found, the entry's mutual list and score, and a mutual count equal to the list's length (`Recommender.RecommendScore` relates these to the graph) |
| Recommender.Recommend | services/graphService.ts:44-99 | `getRecommendations`: empty for an unknown target; sorted by score, descending |
| Recommender.VisitCandidate | services/graphService.ts:58-66 | one visit of pass 1 keeps the scoring table equal to its definition over the visits so far |
| Recommender.VisitFriendsOf | services/graphService.ts:55-67 | one friend's walk in pass 1 keeps the scoring table equal to its definition |
| Recommender.AddDepartmentBonus | services/graphService.ts:71-85 | pass 2 keeps the table equal to its definition, with the department matches as seen |
| Recommender.ScoreCandidates | services/graphService.ts:54-85 | the two passes produce exactly the candidate keys in insertion order and their scores, all positive |
| Recommender.RecommendEntry | services/graphService.ts:87-96 | each recommendation is a scored candidate, carrying the account found and its entry |
| Recommender.RecommendExcludes | services/graphService.ts:58 | nobody is recommended to themselves or to a current friend |
| Recommender.RecommendScore | services/graphService.ts:59-83 | score = 10 per mutual friend + 5 per same-department account entry; positive; mutual count = list length |
| Recommender.RecommendComplete | services/graphService.ts:54-85 | every listed admissible friend-of-friend or same-department account is recommended |
| Recommender.RecommendTies | services/graphService.ts:98 | recommendations with equal scores keep the map's insertion order |
| Recommender.DeptCountUnique | services/graphService.ts:71-78 | with unique keys the department bonus applies at most once |
| Recommender.RecommendDistinct | services/graphService.ts:87-98 | no account is recommended twice: the map's keys are distinct, each resolves to one account, and the sort only reorders |
| Recommender.ResolveDistinct | services/graphService.ts:87-97 | distinct map keys resolve to recommendations for distinct accounts |
| Sorting.SortDescDistinct | services/graphService.ts:98 | sorting keeps elements with distinct tags distinct |
| Recommender.RecommendBonus | services/graphService.ts:76-78 | with unique keys: score = 10 per mutual friend, plus 5 iff same department |
| GraphServices.GraphService.constructor | services/graphService.ts:8-10 | the new service holds the graph built from the store |
| GraphServices.GraphService.BuildGraph | services/graphService.ts:12-23 | the adjacency map becomes the graph built from the store |
| GraphServices.GraphService.SeedEmpty | services/graphService.ts:16-17 | one empty set per account key |
| GraphServices.GraphService.AddBothDirections | services/graphService.ts:20-21 | each existing set gains the far end of the edge; keys unchanged |
| GraphServices.GraphService.GetFriends | services/graphService.ts:25-28 | rebuilds, then returns the friends in the rebuilt graph |
| GraphServices.GraphService.GetMutualFriends | services/graphService.ts:30-35 | rebuilds, then returns the mutual friends |
| GraphServices.GraphService.GetRecommendations | services/graphService.ts:44-99 | rebuilds, then returns the recommendations |
| GraphServices.GraphService.AreFriends | services/graphService.ts:101-104 | rebuilds, then answers adjacency |
| FriendsPage.FriendsOf | pages/Friends.tsx:19-24 | the friend list: one lookup per partner key, in edge order |
| FriendsPage.Partners | pages/Friends.tsx:19-22 | the far end of each edge, one per edge, in edge order (`FriendsPage.PartnersOfTouching` ties them to the partner keys) |
| FriendsPage.PartnersOfTouching | pages/Friends.tsx:19-22 | the partners of the accepted edges touching `me` are the partner keys |
| FriendsPage.FriendsOfMembers | pages/Friends.tsx:19-24 | an account is listed iff it is befriended with `me` and is the one its key finds |
| FriendsPage.FriendsOfResolved | pages/Friends.tsx:23 | when every edge's ends are listed, no friend is missing |
| FriendsPage.IncomingRequests | pages/Friends.tsx:26-31 | one request per pending edge addressed to `me`, in edge order: request i carries the i-th such edge's `user1` and the account that key finds |
| FriendsPage.IncomingRequestsMembers | pages/Friends.tsx:26-31 | a request is listed iff a pending edge to `me` carries that sender |
| FriendsPage.AcceptFrom | pages/Friends.tsx:46 | accept: the edges from the sender to `me` become accepted, nothing else changes |
| FriendsPage.AcceptFromBefriends | pages/Friends.tsx:46 | after accept a pair is befriended iff it was, or an edge from the sender joins it |
| FriendsPage.AcceptFromKeepsPairs | pages/Friends.tsx:46 | accept keeps one edge per pair |
| FriendsPage.AcceptFromIgnoresReverse | pages/Friends.tsx:46 | accept changes nothing when no edge runs from the sender to `me` |
| FriendsPage.RejectFrom | pages/Friends.tsx:48 | reject: exactly the edges from the sender to `me` are dropped, every other edge kept with its multiplicity, order kept |
| FriendsPage.RemoveBetween | pages/Friends.tsx:58 | remove: every edge joining the two is dropped, in either orientation; the rest keep their order and multiplicity |
| FriendsPage.RemoveBetweenBefriends | pages/Friends.tsx:58 | after removal exactly the two are no longer befriended |
| FriendsPage.DeletionsKeepPairs | pages/Friends.tsx:48-58 | reject and remove keep one edge per pair and never grow the list |
| FriendsPage.FriendsView.constructor | pages/Friends.tsx:37-39 | the page opens with its two lists loaded |
| FriendsPage.FriendsView.LoadData | pages/Friends.tsx:15-35 | `loadData`: friends and requests from the store |
| FriendsPage.FriendsView.HandleAction | pages/Friends.tsx:41-53 | `handleAction`: store gets accept or reject, then both lists reload |
| FriendsPage.FriendsView.RemoveFriend | pages/Friends.tsx:55-61 | `removeFriend`: nothing without confirmation; otherwise the pair's edges are dropped and lists reload |
| DashboardPage.FriendCountAgrees | pages/Dashboard.tsx:20-22 | the friend counter equals the friend list's length, and with one edge per pair the degree in the graph |
| DashboardPage.PendingCountAgrees | pages/Dashboard.tsx:24-26 | the pending counter equals the request list's length |
| DashboardPage.FriendCount | pages/Dashboard.tsx:20-22 | the friend counter: at most the number of edges, and zero iff no accepted edge touches `me` (`DashboardPage.FriendCountAgrees` gives its value) |
| DashboardPage.PendingCount | pages/Dashboard.tsx:24-26 | the pending counter: at most the number of edges, and zero iff no pending edge is addressed to `me` (`DashboardPage.PendingCountAgrees` gives its value) |
| DashboardPage.Top4 | pages/Dashboard.tsx:17 | `slice(0, 4)`: a prefix of at most four |
| DashboardPage.Top4Highest | pages/Dashboard.tsx:17 | the four shown are ranked and score at least as much as any not shown |
| DashboardPage.SendRequestEdges | pages/Dashboard.tsx:32-46 | unchanged when any edge joins the pair; otherwise one pending edge from `me` appended |
| DashboardPage.SendRequestKeepsPairs | pages/Dashboard.tsx:36-46 | a request keeps one edge per pair |
| DashboardPage.SendRequestIdempotent | pages/Dashboard.tsx:36 | sending twice is sending once |
| DashboardPage.DropTarget | pages/Dashboard.tsx:47 | the shown list loses the target and keeps the rest in order, each as often as before |
| DashboardPage.DashboardView.constructor | pages/Dashboard.tsx:11-13 | empty list and zero counters |
| DashboardPage.DashboardView.Refresh | pages/Dashboard.tsx:15-30 | the top four recommendations and both counters from the store |
| DashboardPage.DashboardView.SendRequest | pages/Dashboard.tsx:32-48 | `sendRequest`: the store gets the guarded request; the target leaves the list only when it was sent |
| GraphViewPage.FindEdge | pages/GraphView.tsx:306-313 | the first edge joining the pair, if any |
| GraphViewPage.PanelButton | pages/GraphView.tsx:417-447 | no button for oneself; "add" iff no edge; "accept" iff a pending edge not sent by `me` |
| GraphViewPage.AddEdges | pages/GraphView.tsx:318-325 | "add": a new request appended |
| GraphViewPage.AddUnguardedBreaksPairs | pages/GraphView.tsx:318-325 | appended without a check, "add" can give a pair a second edge |
| GraphViewPage.AddGuardedKeepsPairs | pages/GraphView.tsx:419-421 | behind the panel's guard "add" is the dashboard's request and keeps one edge per pair |
| GraphViewPage.AcceptBetween | pages/GraphView.tsx:327-332 | "accept": every edge joining the pair becomes accepted, nothing else changes |
| GraphViewPage.AcceptBetweenBefriends | pages/GraphView.tsx:327-332 | after accept a pair is befriended iff it was or an edge between the two joins it |
| GraphViewPage.AcceptBetweenKeepsPairs | pages/GraphView.tsx:327-332 | accept keeps one edge per pair |
| GraphViewPage.AcceptHandlersDiffer | pages/GraphView.tsx:328 | an edge the relationship page would not accept is accepted here |
| GraphViewPage.NodeTypeOf | pages/GraphView.tsx:94-98 | "me", else "friend" iff adjacent, else "recommended" iff listed in the recommendations |
| GraphViewPage.NodeTypesFromService | pages/GraphView.tsx:94-98 | every recommended account is drawn as recommended, every friend as friend |
| GraphViewPage.HighlightedMembers | pages/GraphView.tsx:228-237 | the highlight holds the node and exactly the ends of links incident to it, once each |
| GraphViewPage.Highlighted | pages/GraphView.tsx:228-237 | the highlight starts with the node itself and holds no key twice (`GraphViewPage.HighlightedMembers` gives its members) |
| GraphViewPage.UpdateHighlight | pages/GraphView.tsx:228-237 | the loop builds that highlight set |
| GraphViewPage.FriendLinksIncident | pages/GraphView.tsx:109-113 | a friendship link touches two nodes iff an accepted edge joins them |
| GraphViewPage.RecommendationLinksIncident | pages/GraphView.tsx:115-121 | a recommendation link touches `me` and a recommended node |
| GraphViewPage.Links | pages/GraphView.tsx:109-121 | one link per accepted edge, in edge order, followed by one link from `me` per recommendation, in ranking order |
| GraphViewPage.FriendLinks | pages/GraphView.tsx:109-113 | link i runs from edge i's `user1` to its `user2` and is a friendship link |
| GraphViewPage.RecommendationLinks | pages/GraphView.tsx:115-121 | link i runs from `me` to recommendation i's account and is a recommendation link |
| GraphViewPage.HighlightOnDrawing | pages/GraphView.tsx:109-121 | on the drawn links the highlight is the node, its friends, and the recommendation ends |
| GraphViewPage.LastN | pages/GraphView.tsx:56 | `slice(-5)`: the last five, or all when fewer |
| GraphViewPage.ConnectionLogs | pages/GraphView.tsx:67-77 | one connection item per edge, in order |
| GraphViewPage.ConnectionLogsDescending | pages/GraphView.tsx:74 | connection items are dated strictly newest first |
| GraphViewPage.NewestSpec | pages/GraphView.tsx:79-81 | sort then `slice(0, n)`: at most n items, newest first, drawn from the sources, none left out newer |
| GraphViewPage.ActivityNewest | pages/GraphView.tsx:47-84 | the feed holds the ten newest of posts, last messages and last connections |
| GraphViewPage.Prefix | pages/GraphView.tsx:51 | `substring(0, n)`: a prefix of the text, n characters long or the whole text when shorter |
| GraphViewPage.NameOr | pages/GraphView.tsx:56-69 | `find(...)?.name \|\| fallback`: the name of the first account with the key when that account exists and its name is non-empty, else the fallback |
| GraphViewPage.PostLog | pages/GraphView.tsx:48-54 | a post item: kind post, the post's timestamp, its author's name |
| GraphViewPage.MessageLog | pages/GraphView.tsx:56-65 | a message item: kind message, the message's timestamp, id `m-` + message id, and as user the sender's name or "Someone" (`NameOr`) |
| GraphViewPage.ConnectionLog | pages/GraphView.tsx:67-77 | the i-th connection item: kind connection, dated `now - i * 1000000`, id `c-` + the numeral of i, and as user `user1`'s name or "User" (`NameOr`) |
| GraphViewPage.ActivitySources | pages/GraphView.tsx:79 | the combined list has one item per post, per message of the last five and per edge of the last five |
| GraphViewPage.ActivitySourcesMembers | pages/GraphView.tsx:47-79 | an item is in the combined list iff it is a post's item, an item of one of the last five messages, or the i-th item of the last five edges |
| GraphViewPage.MessageItemsMembers | pages/GraphView.tsx:56-65 | an item is among the message items iff it is the item of one of the messages |
| GraphViewPage.ConnectionLogsMembers | pages/GraphView.tsx:67-77 | an item is among the connection items iff it is the i-th edge's item for some i |
| GraphViewPage.Decimal | pages/GraphView.tsx:71 | `${i}`: a non-empty string of decimal digits, without a leading zero, whose value is i |
| GraphViewPage.Activity | pages/GraphView.tsx:79-81 | the feed holds at most ten items, newest first (`GraphViewPage.ActivityNewest` says which ten) |
| GraphViewPage.GraphViewState.RefreshActivity | pages/GraphView.tsx:47-84 | the activity effect: the feed state becomes the feed of the store's posts, messages and accepted edges |
| GraphViewPage.GraphViewState.constructor | pages/GraphView.tsx:37 | the version counter starts at zero |
| GraphViewPage.GraphViewState.HandleFriendAction | pages/GraphView.tsx:315-336 | "add" appends a request, "accept" accepts between the pair; the version is bumped |
| ChatPage.UnreadCounts | pages/Chat.tsx:30-37 | a counter per sender with unread messages to `me`, holding their number |
| ChatPage.UnreadFrom | pages/Chat.tsx:30-37 | the unread count from one sender never exceeds the number of messages (`ChatPage.UnreadFromPositive` says when it is positive) |
| ChatPage.UnreadFromPositive | pages/Chat.tsx:32-36 | a sender's count is positive iff some stored message from them to `me` is unread |
| ChatPage.UnreadFromStep | pages/Chat.tsx:32-36 | one more message adds one to its sender's count when it is unread and addressed to `me`, and nothing otherwise |
| ChatPage.ConversationSpec | pages/Chat.tsx:47-50 | the conversation is exactly the stored messages between the two, oldest first |
| ChatPage.ConversationTies | pages/Chat.tsx:50 | messages with equal timestamps keep their stored order |
| ChatPage.Conversation | pages/Chat.tsx:47-50 | as many messages as the two exchanged, in ascending timestamp order (`ChatPage.ConversationSpec` gives its contents) |
| ChatPage.EarliestFirst | pages/Chat.tsx:50 | a list sorted descending by negated timestamp is sorted ascending by timestamp |
| ChatPage.MarkedReadCounts | pages/Chat.tsx:56-62 | after marking, nothing from the friend is unread and other senders' counts are unchanged |
| ChatPage.MarkedReadNothing | pages/Chat.tsx:56-64 | with nothing unread from the friend, marking changes nothing |
| ChatPage.MarkedRead | pages/Chat.tsx:56-62 | marking keeps every message but its read flag, leaves nothing unread from the friend to `me`, and leaves all other messages as they were |
| ChatPage.MarkRead | pages/Chat.tsx:55-62 | the marking loop: the marked list, and `updated` iff something was unread from the friend |
| ChatPage.FilterFriends | pages/Chat.tsx:112-115 | the friends whose name or key contains the query, case-insensitively, in order, each as often as listed |
| ChatPage.FilterFriendsEmpty | pages/Chat.tsx:112-115 | an empty query keeps every friend |
| ChatPage.LowerIdempotent | pages/Chat.tsx:113 | lower-casing twice is lower-casing once |
| ChatPage.FilterFriendsIgnoresCase | pages/Chat.tsx:112-115 | the search ignores the case of the query |
| ChatPage.ChatView.constructor | pages/Chat.tsx:9-14 | empty state |
| ChatPage.ChatView.Load | pages/Chat.tsx:18-40 | partners, unread counters, and the first friend selected when none is |
| ChatPage.ChatView.OpenConversation | pages/Chat.tsx:42-69 | shows the conversation and marks it read; the counter is cleared only when something changed |
| ChatPage.ChatView.SaveReadMarks | pages/Chat.tsx:55-67 | the store gets the marked list; the friend's counter is reset iff a message changed |
| ChatPage.ChatView.HandleSend | pages/Chat.tsx:83-103 | nothing for a blank draft or no selection; otherwise one unread message appended to store and view, draft cleared |
| LoginPage.FindLogin | pages/Login.tsx:19 | the first account with the trimmed key and the exact password, if any |
| LoginPage.NoPasswordNoLogin | pages/Login.tsx:19 | an account without a password never logs in |
| LoginPage.LoginTrimsKey | pages/Login.tsx:19 | keys that trim alike log in alike |
| LoginPage.RowUser | pages/Login.tsx:41-50 | an account iff name and key are present; department defaults; default password, bio, avatar |
| LoginPage.ParseRow | pages/Login.tsx:41-50 | an account iff the line has two or more fields and the first two trimmed are non-empty; name and key are those trimmed fields; department the trimmed third field, or the default when it is missing or empty; default password |
| LoginPage.RowOf | pages/Login.tsx:40-51 | one line after the header yields at most one account: one iff the line is not blank and parses, and then the parsed account |
| LoginPage.Rows | pages/Login.tsx:39-52 | every account from the data lines is what some line parses to |
| LoginPage.ParseRowOfFields | pages/Login.tsx:41-50 | a line joined from trimmed fields parses to the account of those fields |
| LoginPage.TrimFields | pages/Login.tsx:41 | trimming already trimmed fields changes none |
| LoginPage.ParseRowNeedsName | pages/Login.tsx:42 | a line whose first field is blank gives no account |
| LoginPage.ParseLinesIgnoresHeader | pages/Login.tsx:40 | the first line never matters |
| LoginPage.RowsShape | pages/Login.tsx:39-52 | at most one account per line, each with name, key, department and the defaults |
| LoginPage.ParseLinesSnoc | pages/Login.tsx:39-52 | parsing one more line appends that line's account |
| LoginPage.ParseLines | pages/Login.tsx:39-52 | every account parsed has a name, a key and the default password (`LoginPage.ParseLinesSnoc` gives them line by line) |
| LoginPage.ParseStudents | pages/Login.tsx:36-52 | the parsing loop yields the accounts of the lines after the first |
| LoginPage.MergeUsers | pages/Login.tsx:54-60 | the merging loop yields the merge |
| LoginPage.MergedKeepsExisting | pages/Login.tsx:55 | the stored accounts stay, in place, as a prefix |
| LoginPage.Merged | pages/Login.tsx:54-60 | the merge holds only stored or imported accounts (`LoginPage.MergedLookup` says which) |
| LoginPage.MergedLookup | pages/Login.tsx:56-60 | a key finds the stored account when there is one, else the first imported one |
| LoginPage.MergedUnique | pages/Login.tsx:56-60 | unique stored keys stay unique after the merge |
| LoginPage.MergedGrowth | pages/Login.tsx:54-60 | the merge grows by at most the number imported |
| LoginPage.ImportOvercounts | pages/Login.tsx:63 | a row with a stored key is counted but not added |
| LoginPage.LoginView.constructor | pages/Login.tsx:11-12 | no error, not importing |
| LoginPage.LoginView.HandleLogin | pages/Login.tsx:15-27 | the account found becomes current; otherwise the error message is set |
| LoginPage.LoginView.HandleFileUpload | pages/Login.tsx:34-65 | the store gets the merge of the parsed accounts; the count is the number parsed; import mode ends |
| Lifecycle.RequestLeavesGraph | pages/Dashboard.tsx:40-46 | a request alone changes no adjacency |
| Lifecycle.RequestThenAccept | pages/Friends.tsx:46 | a request then its acceptance makes the two adjacent both ways |
| Lifecycle.RequestThenReject | pages/Friends.tsx:48 | rejecting a fresh request restores the edge list exactly |
| Lifecycle.UnfriendSeparates | pages/Friends.tsx:58 | after removal the two are not adjacent either way |
| Lifecycle.UnfriendKeepsOthers | pages/Friends.tsx:58 | removal leaves every other adjacency as it was |
| Storage.Store.constructor | services/storageService.ts:12-27 | the store holds the given lists and no current account |

## Left out

- The D3 force layout, drawing, zoom, drag and animation of the graph page. Only the node classes, the links and the highlight set are modelled.
- The browser storage and JSON serialisation. The store is the `Storage.Store` object, whose fields are read and replaced whole.
- The feed, profile, layout and routing pages, and the posts except as activity items. They do not change the social graph.
- The "Connection Density" weight named in the recommender's comment. The code does not implement it.
- The locale, the clock (`Date.now()`), `navigate`, `alert`, `confirm` and `FileReader`. The clock and the confirmation are parameters; the others are effects outside the model.
- GraphViewPage.ConnectionLog: one clock reading `now` stands for the separate `Date.now()` call made for each connection item (pages/GraphView.tsx:74). `GraphViewPage.ConnectionLogsDescending` therefore assumes those calls fall within 1,000,000 ms of each other.
- Object identity of React state and re-render scheduling. The effects that refresh state (`loadData`, the dashboard refresh, the chat load, the activity feed) are modelled as the methods they run; when React schedules them is not modelled.
- ToLower: lowers only the ASCII letters, where `toLowerCase` handles all of Unicode.
- ChatPage.FilterFriends: friend entries that failed to resolve (`undefined` in the source, which would throw) are not modelled. The search runs over resolved accounts.
- GraphViewPage.Prefix: `substring(0, 40)` is taken over characters, where JavaScript counts UTF-16 code units.
