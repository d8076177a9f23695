/** The records of the campus network, as the persisted store holds them. */
module Types {
  import opened Collections

  /** An account. `password` and `bio` are optional fields. */
  datatype User = User(
    regNo: string,
    name: string,
    department: string,
    avatar: string,
    password: Option<string>,
    bio: Option<string>)

  /** There is no `rejected` status: a rejected request is deleted. */
  datatype Status = Pending | Accepted

  datatype Friendship = Friendship(user1: string, user2: string, status: Status, requester: string)

  datatype Post = Post(id: string, authorRegNo: string, authorName: string, content: string, timestamp: int)

  /** `read` is optional in the store; an absent flag behaves as `false` everywhere it is tested. */
  datatype Message = Message(id: string, sender: string, receiver: string, text: string, timestamp: int, read: bool)

  /** A ranked suggestion; `score` travels with it and is what the list is sorted by. */
  datatype Recommendation = Recommendation(user: User, mutualCount: int, mutualFriends: seq<string>, score: int)

  function RegNos(users: seq<User>): set<string> {
    set u | u in users :: u.regNo
  }

  predicate UniqueRegNos(users: seq<User>) {
    forall i, j :: 0 <= i < j < |users| ==> users[i].regNo != users[j].regNo
  }

  /** `users.find(u => u.regNo === regNo)`. */
  function FindUser(users: seq<User>, regNo: string): (r: Option<User>)
    ensures r.Some? <==> regNo in RegNos(users)
    ensures r.Some? ==> r.value in users && r.value.regNo == regNo
    ensures r.Some? ==> exists i :: 0 <= i < |users| && users[i] == r.value
                                   && forall j :: 0 <= j < i ==> users[j].regNo != regNo
  {
    var r := FindFirst(users, (u: User) => u.regNo == regNo);
    r
  }

  /** With unique keys the account found is the only one with that key. */
  lemma FindUserUnique(users: seq<User>, u: User)
    requires UniqueRegNos(users) && u in users
    ensures FindUser(users, u.regNo) == Some(u)
  {
    var r := FindUser(users, u.regNo);
    var i :| 0 <= i < |users| && users[i] == r.value && forall j :: 0 <= j < i ==> users[j].regNo != u.regNo;
    var k :| 0 <= k < |users| && users[k] == u;
    assert i == k;
  }

  /** Looking a key up in a concatenation looks in the first part, then the second. */
  lemma FindUserAppend(a: seq<User>, b: seq<User>, r: string)
    ensures FindUser(a + b, r) == if r in RegNos(a) then FindUser(a, r) else FindUser(b, r)
  {
    var ab := a + b;
    if r in RegNos(a) {
      var u := FindUser(a, r).value;
      var i :| 0 <= i < |a| && a[i] == u && forall j :: 0 <= j < i ==> a[j].regNo != r;
      FindUserAt(ab, r, i);
    } else if r in RegNos(b) {
      var u := FindUser(b, r).value;
      var i :| 0 <= i < |b| && b[i] == u && forall j :: 0 <= j < i ==> b[j].regNo != r;
      forall j | 0 <= j < |a| + i ensures ab[j].regNo != r {
        if j < |a| {
          assert ab[j] == a[j] && a[j] in a;
        }
      }
      FindUserAt(ab, r, |a| + i);
    } else {
      assert r !in RegNos(ab);
    }
  }

  /** The account at the first index carrying key `r` is the one found. */
  lemma FindUserAt(users: seq<User>, r: string, i: nat)
    requires i < |users| && users[i].regNo == r
    requires forall j :: 0 <= j < i ==> users[j].regNo != r
    ensures FindUser(users, r) == Some(users[i])
  {
    assert users[i] in users;
    var v := FindUser(users, r).value;
    var k :| 0 <= k < |users| && users[k] == v && forall j :: 0 <= j < k ==> users[j].regNo != r;
    if k != i {
      assert false;
    }
  }
}
