/** The three collections of the backend (`users`, `profiles`, `posts`) and the
    documents they hold, shaped after models/Profile.js and models/Post.js.
    Document ids (Mongo ObjectIds) are natural numbers; every embedded `{ user }` or
    `{ post }` reference is the id it holds. */
module Models {
  import opened Outcomes

  type UserId = nat
  type PostId = nat
  type CommentId = nat

  /** An account. models/User.js is not part of this model; the fields are the ones the routes read and write. */
  datatype User = User(id: UserId, username: string, email: string, fullName: string, avatar: string, password: string)

  /** A profile, found by its owner's id (`Profile.findOne({ user })`). */
  datatype Profile = Profile(
    user: UserId,
    avatar: string,
    fullName: string,
    username: string,
    posts: seq<PostId>,
    followers: seq<UserId>,
    following: seq<UserId>,
    saved: seq<PostId>)

  datatype File = File(fileLink: string, fileType: string)

  /** A comment embedded in a post; `id` is the subdocument's own `_id`. */
  datatype Comment = Comment(id: CommentId, user: UserId, text: string, username: string, avatar: string, date: int)

  /** A post; `date` is its creation time in milliseconds since the epoch. */
  datatype Post = Post(
    id: PostId,
    user: UserId,
    description: string,
    file: File,
    avatar: string,
    username: string,
    likes: seq<UserId>,
    saved: seq<UserId>,
    comments: seq<Comment>,
    date: int)

  /** The whole database as a value. `users` is in the collection's natural order,
      which is the order an unsorted `User.find` returns. */
  datatype Db = Db(users: seq<User>, profiles: map<UserId, Profile>, posts: map<PostId, Post>)

  /** What a handler answers and the database it leaves behind. */
  datatype Outcome = Outcome(status: Status, after: Db)

  /** `User.findById(id)`. */
  function FindUser(users: seq<User>, id: UserId): (r: Option<User>)
    ensures r.Some? <==> exists u :: u in users && u.id == id
    ensures r.Some? ==> r.value in users && r.value.id == id
  {
    if |users| == 0 then None
    else if users[0].id == id then Some(users[0])
    else FindUser(users[1..], id)
  }

  /** Every profile is stored under its owner's id. */
  ghost predicate ProfilesKeyed(profiles: map<UserId, Profile>)
  {
    forall u :: u in profiles ==> profiles[u].user == u
  }

  /** The database documents the handlers load and save. Handlers change it in place. */
  class Store {
    var users: seq<User>
    var profiles: map<UserId, Profile>
    var posts: map<PostId, Post>

    function State(): Db
      reads this
    {
      Db(users, profiles, posts)
    }

    constructor (db: Db)
      ensures State() == db
    {
      users, profiles, posts := db.users, db.profiles, db.posts;
    }
  }
}
