/**
 * The persisted store, reduced to what the core reads and writes: every
 * collection is read whole and replaced whole, and the current account is
 * a field. Serialisation and the browser's storage are not part of this model.
 */
module Storage {
  import opened Collections
  import opened Types

  class Store {
    var users: seq<User>
    var friendships: seq<Friendship>
    var messages: seq<Message>
    var posts: seq<Post>
    var current: Option<User>

    constructor (users: seq<User>, friendships: seq<Friendship>, messages: seq<Message>, posts: seq<Post>)
      ensures this.users == users && this.friendships == friendships
      ensures this.messages == messages && this.posts == posts
      ensures current == None
    {
      this.users := users;
      this.friendships := friendships;
      this.messages := messages;
      this.posts := posts;
      current := None;
    }
  }
}
