/** POST api/users (routes/api/users.js lines 15-96): request validation, the duplicate
    email and username checks, and the creation of the user with its empty profile. */
module Registration {
  import opened Outcomes
  import opened Models

  datatype Request = Request(fullName: string, email: string, password: string, username: string)

  /** The fields express-validator rejects, in declaration order. `emailValid` is the
      verdict of `isEmail`. The `username` check at line 19 has no validator and rejects
      nothing. */
  function ValidationErrors(req: Request, emailValid: bool): (r: seq<string>)
    ensures r == [] <==> req.fullName != "" && emailValid && |req.password| >= 6
    ensures "username" !in r
  {
    (if req.fullName == "" then ["fullName"] else [])
    + (if !emailValid then ["email"] else [])
    + (if |req.password| < 6 then ["password"] else [])
  }

  function EmailTaken(users: seq<User>, email: string): bool
  {
    exists k :: 0 <= k < |users| && users[k].email == email
  }

  function UsernameTaken(users: seq<User>, username: string): bool
  {
    exists k :: 0 <= k < |users| && users[k].username == username
  }

  /** No two accounts share an email or a username. */
  ghost predicate UniqueAccounts(users: seq<User>)
  {
    forall i, j :: 0 <= i < j < |users| ==>
      users[i].email != users[j].email && users[i].username != users[j].username
  }

  /** Every user has a profile stored under its id. */
  ghost predicate EveryUserHasProfile(db: Db)
  {
    forall k :: 0 <= k < |db.users| ==> db.users[k].id in db.profiles && db.profiles[db.users[k].id].user == db.users[k].id
  }

  /** `newId` is the id the database gives the new user, `avatar` the default avatar it
      stores and `hashed` the bcrypt hash of the password. */
  function Register(db: Db, req: Request, emailValid: bool, newId: UserId, avatar: string, hashed: string): Outcome
  {
    if ValidationErrors(req, emailValid) != [] then Outcome(BadRequest, db)
    else if EmailTaken(db.users, req.email) then Outcome(Conflict("email"), db)
    else if UsernameTaken(db.users, req.username) then Outcome(Conflict("username"), db)
    else
      var user := User(newId, req.username, req.email, req.fullName, avatar, hashed);
      var profile := Profile(newId, avatar, req.fullName, req.username, [], [], [], []);
      Outcome(Ok, db.(users := db.users + [user], profiles := db.profiles[newId := profile]))
  }

  /** An invalid request is refused before any lookup; an existing email wins over an
      existing username; nothing changes unless the registration succeeds. */
  lemma RegisterRefusals(db: Db, req: Request, emailValid: bool, newId: UserId, avatar: string, hashed: string)
    ensures var o := Register(db, req, emailValid, newId, avatar, hashed);
      && (o.status == BadRequest <==> req.fullName == "" || !emailValid || |req.password| < 6)
      && (o.status == Conflict("email") <==>
            o.status != BadRequest && exists u :: u in db.users && u.email == req.email)
      && (o.status == Conflict("username") <==>
            o.status != BadRequest && (forall u :: u in db.users ==> u.email != req.email)
            && exists u :: u in db.users && u.username == req.username)
      && (o.status == Ok <==>
            req.fullName != "" && emailValid && |req.password| >= 6
            && (forall u :: u in db.users ==> u.email != req.email && u.username != req.username))
      && (o.status != Ok ==> o.after == db)
  {
    var o := Register(db, req, emailValid, newId, avatar, hashed);
    if o.status != BadRequest {
      if exists u :: u in db.users && u.email == req.email {
        var u :| u in db.users && u.email == req.email;
        var k :| 0 <= k < |db.users| && db.users[k] == u;
      }
      if exists u :: u in db.users && u.username == req.username {
        var u :| u in db.users && u.username == req.username;
        var k :| 0 <= k < |db.users| && db.users[k] == u;
      }
    }
  }

  /** A successful registration appends exactly one user and adds exactly one profile,
      carrying the new id, avatar, full name and submitted username, with empty lists. */
  lemma RegisterCreatesOneProfile(db: Db, req: Request, emailValid: bool, newId: UserId, avatar: string, hashed: string)
    requires newId !in db.profiles
    ensures var o := Register(db, req, emailValid, newId, avatar, hashed);
      o.status == Ok ==>
        && |o.after.users| == |db.users| + 1
        && o.after.posts == db.posts
        && o.after.users[..|db.users|] == db.users
        && o.after.profiles.Keys == db.profiles.Keys + {newId}
        && |o.after.profiles| == |db.profiles| + 1
        && (forall u :: u in db.profiles ==> o.after.profiles[u] == db.profiles[u])
        && var p := o.after.profiles[newId];
           var u := o.after.users[|db.users|];
           && p.user == u.id == newId && p.avatar == u.avatar && p.fullName == u.fullName == req.fullName
           && p.username == u.username == req.username && u.email == req.email && u.password == hashed
           && p.posts == [] && p.followers == [] && p.following == [] && p.saved == []
  {
    var o := Register(db, req, emailValid, newId, avatar, hashed);
    if o.status == Ok {
      var user := User(newId, req.username, req.email, req.fullName, avatar, hashed);
      var profile := Profile(newId, avatar, req.fullName, req.username, [], [], [], []);
      assert o.after == db.(users := db.users + [user], profiles := db.profiles[newId := profile]);
      ProfileAdded(db.profiles, newId, profile);
    }
  }

  /** Storing a profile under a fresh id adds exactly that key. */
  lemma ProfileAdded(profiles: map<UserId, Profile>, id: UserId, p: Profile)
    requires id !in profiles
    ensures profiles[id := p].Keys == profiles.Keys + {id}
    ensures |profiles[id := p]| == |profiles| + 1
  {
    assert profiles[id := p].Keys == profiles.Keys + {id};
    assert |profiles.Keys + {id}| == |profiles.Keys| + 1;
  }

  /** Registration keeps emails and usernames unique, and every user with a profile. */
  lemma RegisterKeepsInvariants(db: Db, req: Request, emailValid: bool, newId: UserId, avatar: string, hashed: string)
    requires UniqueAccounts(db.users) && EveryUserHasProfile(db)
    requires forall k :: 0 <= k < |db.users| ==> db.users[k].id != newId
    ensures var o := Register(db, req, emailValid, newId, avatar, hashed);
      UniqueAccounts(o.after.users) && EveryUserHasProfile(o.after)
  {
    var o := Register(db, req, emailValid, newId, avatar, hashed);
    if o.status == Ok {
      var us := o.after.users;
      forall i, j | 0 <= i < j < |us|
        ensures us[i].email != us[j].email && us[i].username != us[j].username
      {
        if j == |db.users| {
          assert us[i] == db.users[i];
          assert !EmailTaken(db.users, req.email);
        }
      }
    }
  }

  /** An empty username is not refused by validation: it registers when no account uses
      it yet. */
  lemma EmptyUsernameAccepted(db: Db, req: Request, newId: UserId, avatar: string, hashed: string)
    requires req.username == "" && req.fullName != "" && |req.password| >= 6
    requires forall u :: u in db.users ==> u.email != req.email && u.username != ""
    ensures Register(db, req, true, newId, avatar, hashed).status == Ok
  {
    assert !EmailTaken(db.users, req.email) by {
      forall k | 0 <= k < |db.users| ensures db.users[k].email != req.email {
        assert db.users[k] in db.users;
      }
    }
    assert !UsernameTaken(db.users, req.username) by {
      forall k | 0 <= k < |db.users| ensures db.users[k].username != req.username {
        assert db.users[k] in db.users;
      }
    }
  }

  method PostRegister(store: Store, req: Request, emailValid: bool, newId: UserId, avatar: string, hashed: string)
    returns (status: Status)
    modifies store
    ensures Outcome(status, store.State()) == Register(old(store.State()), req, emailValid, newId, avatar, hashed)
  {
    var errors := ValidationErrors(req, emailValid);
    if errors != [] {
      return BadRequest;
    }
    var userEmail := EmailTaken(store.users, req.email);
    var userName := UsernameTaken(store.users, req.username);
    if userEmail {
      return Conflict("email");
    }
    if userName {
      return Conflict("username");
    }
    var user := User(newId, req.username, req.email, req.fullName, avatar, hashed);
    store.users := store.users + [user];
    var profile := Profile(newId, avatar, req.fullName, req.username, [], [], [], []);
    store.profiles := store.profiles[newId := profile];
    return Ok;
  }
}
