/** The mutating handlers of routes/api/posts.js: like/unlike, save/unsave, comment
    add/delete and post deletion. Each handler is a pure function from the database
    before the request to the status sent and the database after it, and a method on
    `Store` that performs the same loads, checks and in-place list updates. A missing
    document (`findById` answering null) makes the next field access throw, which the
    handler's `catch` turns into a 500. */
module PostActions {
  import opened Outcomes
  import opened Models
  import opened JsArray

  /** The database with one post's document replaced. */
  function PutPost(db: Db, pid: PostId, post: Post): Db
  {
    db.(posts := db.posts[pid := post])
  }

  // ---------------------------------------------------------------------------
  // PUT api/posts/like/:id (lines 133-153)

  function Like(db: Db, me: UserId, pid: PostId): Outcome
  {
    if pid !in db.posts then Outcome(ServerError, db)
    else
      var post := db.posts[pid];
      if Occurs(post.likes, me) then Outcome(BadRequest, db)
      else Outcome(Ok, PutPost(db, pid, post.(likes := [me] + post.likes)))
  }

  /** A like is refused with 400 when the requester already likes the post, and
      otherwise prepended; nothing else changes. */
  lemma LikeEffect(db: Db, me: UserId, pid: PostId)
    ensures var o := Like(db, me, pid);
      && (o.status == ServerError <==> pid !in db.posts)
      && (o.status == BadRequest <==> pid in db.posts && me in db.posts[pid].likes)
      && (o.status != Ok ==> o.after == db)
      && (o.status == Ok ==> o.after == PutPost(db, pid, db.posts[pid].(likes := [me] + db.posts[pid].likes)))
  {
  }

  /** A duplicate-free `likes` list stays duplicate-free. */
  lemma LikeKeepsNoRepeats(db: Db, me: UserId, pid: PostId)
    requires pid in db.posts && NoRepeats(db.posts[pid].likes)
    ensures var o := Like(db, me, pid);
      pid in o.after.posts && NoRepeats(o.after.posts[pid].likes)
  {
    var o := Like(db, me, pid);
    if o.status == Ok {
      PrependKeepsNoRepeats(me, db.posts[pid].likes);
    }
  }

  method PutLike(store: Store, me: UserId, pid: PostId) returns (status: Status)
    modifies store
    ensures Outcome(status, store.State()) == Like(old(store.State()), me, pid)
  {
    if pid !in store.posts {
      return ServerError;
    }
    var post := store.posts[pid];
    if Occurs(post.likes, me) {
      return BadRequest;
    }
    post := post.(likes := [me] + post.likes);
    store.posts := store.posts[pid := post];
    return Ok;
  }

  // ---------------------------------------------------------------------------
  // PUT api/posts/unlike/:id (lines 158-182)

  /** As written: the 400 at line 166 is sent without `return`, so the handler goes on
      to `splice(indexOf(...), 1)` with index -1, which drops the last like. */
  function Unlike(db: Db, me: UserId, pid: PostId): Outcome
  {
    if pid !in db.posts then Outcome(ServerError, db)
    else
      var post := db.posts[pid];
      var status := if !Occurs(post.likes, me) then BadRequest else Ok;
      var removeIndex := IndexOf(post.likes, me);
      Outcome(status, PutPost(db, pid, post.(likes := Splice1(post.likes, removeIndex))))
  }

  /** With the missing `return` in place. */
  function UnlikeIntended(db: Db, me: UserId, pid: PostId): Outcome
  {
    if pid !in db.posts then Outcome(ServerError, db)
    else
      var post := db.posts[pid];
      if !Occurs(post.likes, me) then Outcome(BadRequest, db)
      else Outcome(Ok, PutPost(db, pid, post.(likes := Splice1(post.likes, IndexOf(post.likes, me)))))
  }

  /** As written, an unlike by someone who never liked the post answers 400 and still
      removes the last entry of `likes`, which is somebody else's like. */
  lemma UnlikeDropsAnotherLike(db: Db, me: UserId, pid: PostId)
    requires pid in db.posts && me !in db.posts[pid].likes && |db.posts[pid].likes| > 0
    ensures var l := db.posts[pid].likes;
      var o := Unlike(db, me, pid);
      o.status == BadRequest && o.after.posts[pid].likes == l[..|l| - 1] && l[|l| - 1] != me
  {
  }

  /** The corrected unlike leaves everything alone on 400 and otherwise removes one like of
      the requester's; when `likes` had no duplicates, the requester no longer likes it. */
  lemma UnlikeIntendedEffect(db: Db, me: UserId, pid: PostId)
    ensures var o := UnlikeIntended(db, me, pid);
      && (o.status == ServerError <==> pid !in db.posts)
      && (o.status == BadRequest <==> pid in db.posts && me !in db.posts[pid].likes)
      && (o.status == Ok <==> pid in db.posts && me in db.posts[pid].likes)
      && (o.status != Ok ==> o.after == db)
      && (o.status == Ok ==>
            var l := db.posts[pid].likes;
            && (exists i :: 0 <= i < |l| && l[i] == me && me !in l[..i]
                  && o.after == PutPost(db, pid, db.posts[pid].(likes := l[..i] + l[i + 1..])))
            && multiset(o.after.posts[pid].likes) == multiset(l) - multiset{me}
            && (NoRepeats(l) ==> me !in o.after.posts[pid].likes))
  {
    var o := UnlikeIntended(db, me, pid);
    if o.status == Ok {
      var l := db.posts[pid].likes;
      var i := IndexOf(l, me);
      SpliceIndexOf(l, me);
      assert o.after == PutPost(db, pid, db.posts[pid].(likes := l[..i] + l[i + 1..]));
      if NoRepeats(l) {
        SpliceIndexOfRemovesAll(l, me);
      }
    }
  }

  /** An unlike right after a successful like restores the database, both as written and
      as intended. */
  lemma UnlikeUndoesLike(db: Db, me: UserId, pid: PostId)
    requires Like(db, me, pid).status == Ok
    ensures Unlike(Like(db, me, pid).after, me, pid) == Outcome(Ok, db)
    ensures UnlikeIntended(Like(db, me, pid).after, me, pid) == Outcome(Ok, db)
  {
    LikedFirst(db, me, pid);
  }

  /** After a successful like the requester's like is found first, and splicing it out
      gives the original document back. */
  lemma LikedFirst(db: Db, me: UserId, pid: PostId)
    requires Like(db, me, pid).status == Ok
    ensures var db1 := Like(db, me, pid).after;
      && pid in db1.posts && Occurs(db1.posts[pid].likes, me)
      && IndexOf(db1.posts[pid].likes, me) == 0
      && PutPost(db1, pid, db1.posts[pid].(likes := Splice1(db1.posts[pid].likes, 0))) == db
  {
    var post := db.posts[pid];
    var liked := post.(likes := [me] + post.likes);
    var db1 := PutPost(db, pid, liked);
    assert Like(db, me, pid).after == db1;
    assert Splice1(liked.likes, 0) == post.likes;
    assert liked.(likes := post.likes) == post;
    assert db1.posts[pid := post] == db.posts;
  }

  method PutUnlike(store: Store, me: UserId, pid: PostId) returns (status: Status)
    modifies store
    ensures Outcome(status, store.State()) == Unlike(old(store.State()), me, pid)
  {
    if pid !in store.posts {
      return ServerError;
    }
    var post := store.posts[pid];
    status := Ok;
    if !Occurs(post.likes, me) {
      status := BadRequest;
    }
    var removeIndex := IndexOf(post.likes, me);
    post := post.(likes := Splice1(post.likes, removeIndex));
    store.posts := store.posts[pid := post];
  }

  // ---------------------------------------------------------------------------
  // Saved posts: PUT api/posts/save/:id (lines 187-210), unsave (lines 215-245)

  /** `post.saved` names the users who saved the post and `profile.saved` the posts the
      profile's owner saved; the two sides agree entry for entry. */
  ghost predicate SavesMirrored(db: Db)
  {
    forall pid, u :: pid in db.posts && u in db.profiles ==>
      multiset(db.posts[pid].saved)[u] == multiset(db.profiles[u].saved)[pid]
  }

  function Save(db: Db, me: UserId, pid: PostId): Outcome
  {
    if pid !in db.posts then Outcome(ServerError, db)
    else
      var post := db.posts[pid];
      if Occurs(post.saved, me) then Outcome(BadRequest, db)
      else if me !in db.profiles then Outcome(ServerError, db)
      else
        var profile := db.profiles[me];
        Outcome(Ok, db.(posts := db.posts[pid := post.(saved := [me] + post.saved)],
                        profiles := db.profiles[me := profile.(saved := [pid] + profile.saved)]))
  }

  lemma SaveEffect(db: Db, me: UserId, pid: PostId)
    ensures var o := Save(db, me, pid);
      && (o.status == BadRequest <==> pid in db.posts && me in db.posts[pid].saved)
      && (o.status == ServerError <==> pid !in db.posts || (me !in db.posts[pid].saved && me !in db.profiles))
      && (o.status == Ok <==> pid in db.posts && me !in db.posts[pid].saved && me in db.profiles)
      && (o.status != Ok ==> o.after == db)
      && (o.status == Ok ==>
            var post := db.posts[pid];
            var profile := db.profiles[me];
            o.after == db.(posts := db.posts[pid := post.(saved := [me] + post.saved)],
                           profiles := db.profiles[me := profile.(saved := [pid] + profile.saved)]))
  {
  }

  /** A save keeps the two sides of every saved entry in step, and keeps `post.saved`
      duplicate-free. */
  lemma SaveKeepsMirrored(db: Db, me: UserId, pid: PostId)
    requires SavesMirrored(db)
    ensures SavesMirrored(Save(db, me, pid).after)
    ensures pid in db.posts && NoRepeats(db.posts[pid].saved) ==>
      NoRepeats(Save(db, me, pid).after.posts[pid].saved)
  {
    var o := Save(db, me, pid);
    if o.status == Ok {
      var s: seq<UserId> := db.posts[pid].saved;
      var t: seq<PostId> := db.profiles[me].saved;
      assert o.after.posts[pid].saved == [me] + s;
      assert o.after.profiles[me].saved == [pid] + t;
      forall q, u | q in o.after.posts && u in o.after.profiles
        ensures multiset(o.after.posts[q].saved)[u] == multiset(o.after.profiles[u].saved)[q]
      {
        assert q in db.posts && u in db.profiles;
        assert multiset(db.posts[q].saved)[u] == multiset(db.profiles[u].saved)[q];
        if q != pid {
          assert o.after.posts[q] == db.posts[q];
        } else {
          assert multiset([me] + s)[u] == multiset(s)[u] + if u == me then 1 else 0;
        }
        if u != me {
          assert o.after.profiles[u] == db.profiles[u];
        } else {
          assert multiset([pid] + t)[q] == multiset(t)[q] + if q == pid then 1 else 0;
        }
      }
      if NoRepeats(s) {
        PrependKeepsNoRepeats(me, s);
      }
    }
  }

  method PutSave(store: Store, me: UserId, pid: PostId) returns (status: Status)
    modifies store
    ensures Outcome(status, store.State()) == Save(old(store.State()), me, pid)
  {
    if pid !in store.posts {
      return ServerError;
    }
    var post := store.posts[pid];
    if Occurs(post.saved, me) {
      return BadRequest;
    }
    if me !in store.profiles {
      return ServerError;
    }
    var profile := store.profiles[me];
    post := post.(saved := [me] + post.saved);
    profile := profile.(saved := [pid] + profile.saved);
    store.posts := store.posts[pid := post];
    store.profiles := store.profiles[me := profile];
    return Ok;
  }

  /** As written: the 400 at line 225 is sent without `return`. Without a profile the
      handler throws (no change; the client has already seen the 400 if one was sent);
      with one, both lists are spliced at whatever index `indexOf` gave, -1 included. */
  function Unsave(db: Db, me: UserId, pid: PostId): Outcome
  {
    if pid !in db.posts then Outcome(ServerError, db)
    else
      var post := db.posts[pid];
      var notSaved := !Occurs(post.saved, me);
      if me !in db.profiles then Outcome(if notSaved then BadRequest else ServerError, db)
      else
        var profile := db.profiles[me];
        var removeIndex := IndexOf(post.saved, me);
        var profileRemoveIndex := IndexOf(profile.saved, pid);
        Outcome(if notSaved then BadRequest else Ok,
                db.(posts := db.posts[pid := post.(saved := Splice1(post.saved, removeIndex))],
                    profiles := db.profiles[me := profile.(saved := Splice1(profile.saved, profileRemoveIndex))]))
  }

  /** With the missing `return` in place. */
  function UnsaveIntended(db: Db, me: UserId, pid: PostId): Outcome
  {
    if pid !in db.posts then Outcome(ServerError, db)
    else
      var post := db.posts[pid];
      if !Occurs(post.saved, me) then Outcome(BadRequest, db)
      else if me !in db.profiles then Outcome(ServerError, db)
      else
        var profile := db.profiles[me];
        Outcome(Ok, db.(posts := db.posts[pid := post.(saved := Splice1(post.saved, IndexOf(post.saved, me)))],
                        profiles := db.profiles[me := profile.(saved := Splice1(profile.saved, IndexOf(profile.saved, pid)))]))
  }

  /** As written, unsaving a post one never saved answers 400 yet drops the last user of
      `post.saved`, and, when the profile does not list the post either, the last post of
      `profile.saved`; the save records stop agreeing. */
  lemma UnsaveBreaksMirror()
    ensures var other := 1;
      var p0 := Post(0, 7, "d", File("l", "t"), "", "", [], [other], [], 0);
      var p1 := Post(1, 7, "d", File("l", "t"), "", "", [], [0], [], 0);
      var prof := Profile(0, "", "", "", [], [], [], [1]);
      var prof1 := Profile(other, "", "", "", [], [], [], [0]);
      var db := Db([], map[0 := prof, other := prof1], map[0 := p0, 1 := p1]);
      var o := Unsave(db, 0, 0);
      && SavesMirrored(db)
      && o.status == BadRequest
      && o.after.posts[0].saved == [] && o.after.profiles[0].saved == []
      && !SavesMirrored(o.after)
  {
    var other := 1;
    var p0 := Post(0, 7, "d", File("l", "t"), "", "", [], [other], [], 0);
    var p1 := Post(1, 7, "d", File("l", "t"), "", "", [], [0], [], 0);
    var prof := Profile(0, "", "", "", [], [], [], [1]);
    var prof1 := Profile(other, "", "", "", [], [], [], [0]);
    var db := Db([], map[0 := prof, other := prof1], map[0 := p0, 1 := p1]);
    forall q, u | q in db.posts && u in db.profiles
      ensures multiset(db.posts[q].saved)[u] == multiset(db.profiles[u].saved)[q]
    {
    }
    var o := Unsave(db, 0, 0);
    assert multiset(o.after.posts[0].saved)[other] == 0;
    assert multiset(o.after.profiles[other].saved)[0] == 1;
  }

  /** As written: 400 iff the requester has not saved the post, 500 iff the post is missing
      or the requester saved it but has no profile; the database changes only when the
      profile exists, and then even on 400. */
  lemma UnsaveEffect(db: Db, me: UserId, pid: PostId)
    ensures var o := Unsave(db, me, pid);
      && (o.status == ServerError <==> pid !in db.posts || (me in db.posts[pid].saved && me !in db.profiles))
      && (o.status == BadRequest <==> pid in db.posts && me !in db.posts[pid].saved)
      && (o.status == Ok <==> pid in db.posts && me in db.posts[pid].saved && me in db.profiles)
      && (pid !in db.posts || me !in db.profiles ==> o.after == db)
  {
  }

  /** As written, an unsave by someone who never saved the post answers 400 and still cuts
      the last entry of `post.saved`, which is someone else's, and the last entry of the
      requester's `saved` unless it lists the post; nothing else changes. */
  lemma UnsaveDropsLastSave(db: Db, me: UserId, pid: PostId)
    requires pid in db.posts && me in db.profiles && me !in db.posts[pid].saved
    ensures var o := Unsave(db, me, pid);
      var s := db.posts[pid].saved;
      var t := db.profiles[me].saved;
      && o.status == BadRequest
      && (|s| > 0 ==> s[|s| - 1] != me && o.after.posts[pid].saved == s[..|s| - 1])
      && (|s| == 0 ==> o.after.posts[pid].saved == s)
      && (pid !in t && |t| > 0 ==> o.after.profiles[me].saved == t[..|t| - 1])
      && (pid in t ==> multiset(o.after.profiles[me].saved) == multiset(t) - multiset{pid})
      && o.after.users == db.users
      && o.after.posts == db.posts[pid := db.posts[pid].(saved := o.after.posts[pid].saved)]
      && o.after.profiles == db.profiles[me := db.profiles[me].(saved := o.after.profiles[me].saved)]
  {
    var t := db.profiles[me].saved;
    if pid in t {
      SpliceIndexOf(t, pid);
    }
  }

  /** When the requester has saved the post, the missing `return` does not matter. */
  lemma UnsaveAgreesWhenSaved(db: Db, me: UserId, pid: PostId)
    requires pid in db.posts && me in db.posts[pid].saved
    ensures Unsave(db, me, pid) == UnsaveIntended(db, me, pid)
  {
  }

  /** The corrected unsave: 400 without change when the post is not saved, 500 when the
      post or the profile is missing; otherwise the requester's first entry leaves
      `post.saved`, the post's first entry leaves `profile.saved` (the last one if the
      profile does not list it, since that index is not checked), and nothing else
      changes. */
  lemma UnsaveIntendedEffect(db: Db, me: UserId, pid: PostId)
    ensures var o := UnsaveIntended(db, me, pid);
      && (o.status == BadRequest <==> pid in db.posts && me !in db.posts[pid].saved)
      && (o.status == ServerError <==> pid !in db.posts || (me in db.posts[pid].saved && me !in db.profiles))
      && (o.status == Ok <==> pid in db.posts && me in db.posts[pid].saved && me in db.profiles)
      && (o.status != Ok ==> o.after == db)
      && (o.status == Ok ==>
            var post := db.posts[pid];
            var profile := db.profiles[me];
            var s := post.saved;
            var t := profile.saved;
            && o.after.users == db.users
            && (exists i :: 0 <= i < |s| && s[i] == me && me !in s[..i]
                  && o.after.posts == db.posts[pid := post.(saved := s[..i] + s[i + 1..])])
            && o.after.profiles == db.profiles[me := profile.(saved := o.after.profiles[me].saved)]
            && (pid in t ==>
                  exists j :: 0 <= j < |t| && t[j] == pid && pid !in t[..j]
                    && o.after.profiles[me].saved == t[..j] + t[j + 1..])
            && (pid !in t && |t| > 0 ==> o.after.profiles[me].saved == t[..|t| - 1]))
  {
    var o := UnsaveIntended(db, me, pid);
    if o.status == Ok {
      var post := db.posts[pid];
      var profile := db.profiles[me];
      var s := post.saved;
      var t := profile.saved;
      var s2 := Splice1(s, IndexOf(s, me));
      var t2 := Splice1(t, IndexOf(t, pid));
      assert o.after == db.(posts := db.posts[pid := post.(saved := s2)],
                            profiles := db.profiles[me := profile.(saved := t2)]);
      CutFirst(s, me);
      if pid in t {
        CutFirst(t, pid);
      }
    }
  }

  /** The corrected unsave answers 400 without change, and otherwise removes one entry from
      each side, which keeps the save records in step. */
  lemma UnsaveIntendedKeepsMirrored(db: Db, me: UserId, pid: PostId)
    requires SavesMirrored(db)
    ensures var o := UnsaveIntended(db, me, pid);
      && (o.status == BadRequest <==> pid in db.posts && me !in db.posts[pid].saved)
      && (o.status != Ok ==> o.after == db)
      && (o.status == Ok ==>
            multiset(o.after.posts[pid].saved) == multiset(db.posts[pid].saved) - multiset{me}
            && multiset(o.after.profiles[me].saved) == multiset(db.profiles[me].saved) - multiset{pid})
      && SavesMirrored(o.after)
  {
    var o := UnsaveIntended(db, me, pid);
    if o.status == Ok {
      var s: seq<UserId> := db.posts[pid].saved;
      var t: seq<PostId> := db.profiles[me].saved;
      assert me in multiset(s);
      assert pid in multiset(t);
      SpliceIndexOf(s, me);
      SpliceIndexOf(t, pid);
      forall q, u | q in o.after.posts && u in o.after.profiles
        ensures multiset(o.after.posts[q].saved)[u] == multiset(o.after.profiles[u].saved)[q]
      {
        assert q in db.posts && u in db.profiles;
        assert multiset(db.posts[q].saved)[u] == multiset(db.profiles[u].saved)[q];
        if q != pid {
          assert o.after.posts[q] == db.posts[q];
        } else {
          CountAfterRemove(multiset(s), multiset(o.after.posts[q].saved), me, u);
        }
        if u != me {
          assert o.after.profiles[u] == db.profiles[u];
        } else {
          CountAfterRemove(multiset(t), multiset(o.after.profiles[u].saved), pid, q);
        }
      }
    }
  }

  method PutUnsave(store: Store, me: UserId, pid: PostId) returns (status: Status)
    modifies store
    ensures Outcome(status, store.State()) == Unsave(old(store.State()), me, pid)
  {
    if pid !in store.posts {
      return ServerError;
    }
    var post := store.posts[pid];
    var notSaved := !Occurs(post.saved, me);
    if me !in store.profiles {
      return if notSaved then BadRequest else ServerError;
    }
    var profile := store.profiles[me];
    var removeIndex := IndexOf(post.saved, me);
    var profileRemoveIndex := IndexOf(profile.saved, pid);
    post := post.(saved := Splice1(post.saved, removeIndex));
    profile := profile.(saved := Splice1(profile.saved, profileRemoveIndex));
    store.posts := store.posts[pid := post];
    store.profiles := store.profiles[me := profile];
    status := if notSaved then BadRequest else Ok;
  }

  // ---------------------------------------------------------------------------
  // Comments: POST api/posts/comment/:id (lines 250-281),
  // DELETE api/posts/comment/:id/:comment_id (lines 286-315)

  function CommentIds(cs: seq<Comment>): (r: seq<CommentId>)
    ensures |r| == |cs| && forall i :: 0 <= i < |cs| ==> r[i] == cs[i].id
  {
    seq(|cs|, i requires 0 <= i < |cs| => cs[i].id)
  }

  function CommentAuthors(cs: seq<Comment>): (r: seq<UserId>)
    ensures |r| == |cs| && forall i :: 0 <= i < |cs| ==> r[i] == cs[i].user
  {
    seq(|cs|, i requires 0 <= i < |cs| => cs[i].user)
  }

  /** `cid` is the id the database assigns to the new subdocument and `now` the
      `Date.now` default of its `date`. Empty text fails validation before any lookup. */
  function CommentAdd(db: Db, me: UserId, pid: PostId, text: string, cid: CommentId, now: int): Outcome
  {
    if text == "" then Outcome(BadRequest, db)
    else match FindUser(db.users, me)
      case None => Outcome(ServerError, db)
      case Some(user) =>
        if pid !in db.posts then Outcome(ServerError, db)
        else
          var post := db.posts[pid];
          var comment := Comment(cid, me, text, user.username, user.avatar, now);
          Outcome(Ok, PutPost(db, pid, post.(comments := [comment] + post.comments)))
  }

  lemma CommentAddEffect(db: Db, me: UserId, pid: PostId, text: string, cid: CommentId, now: int)
    ensures var o := CommentAdd(db, me, pid, text, cid, now);
      && (o.status == BadRequest <==> text == "")
      && (o.status == Ok <==> text != "" && FindUser(db.users, me).Some? && pid in db.posts)
      && (o.status != Ok ==> o.after == db)
      && (o.status == Ok ==>
            var c := o.after.posts[pid].comments[0];
            && o.after == PutPost(db, pid, db.posts[pid].(comments := [c] + db.posts[pid].comments))
            && c.id == cid && c.user == me && c.text == text && c.date == now
            && (exists u :: u in db.users && u.id == me && u.username == c.username && u.avatar == c.avatar))
  {
  }

  /** As written: after checking that the requested comment exists (404) and is the
      requester's (401), the handler splices at the index of the requester's FIRST
      comment, which need not be the requested one. */
  function CommentDelete(db: Db, me: UserId, pid: PostId, cid: CommentId): Outcome
  {
    if pid !in db.posts then Outcome(ServerError, db)
    else
      var post := db.posts[pid];
      var found := IndexOf(CommentIds(post.comments), cid);
      if found == -1 then Outcome(NotFound, db)
      else if post.comments[found].user != me then Outcome(Unauthorized, db)
      else
        var removeIndex := IndexOf(CommentAuthors(post.comments), me);
        Outcome(Ok, PutPost(db, pid, post.(comments := Splice1(post.comments, removeIndex))))
  }

  /** With the splice at the requested comment's own index. */
  function CommentDeleteIntended(db: Db, me: UserId, pid: PostId, cid: CommentId): Outcome
  {
    if pid !in db.posts then Outcome(ServerError, db)
    else
      var post := db.posts[pid];
      var found := IndexOf(CommentIds(post.comments), cid);
      if found == -1 then Outcome(NotFound, db)
      else if post.comments[found].user != me then Outcome(Unauthorized, db)
      else Outcome(Ok, PutPost(db, pid, post.(comments := Splice1(post.comments, found))))
  }

  /** As written, exactly one comment goes: the requester's first, wherever the requested
      one is. */
  lemma CommentDeleteEffect(db: Db, me: UserId, pid: PostId, cid: CommentId)
    ensures var o := CommentDelete(db, me, pid, cid);
      && (o.status == ServerError <==> pid !in db.posts)
      && (o.status == NotFound <==> pid in db.posts && cid !in CommentIds(db.posts[pid].comments))
      && (pid in db.posts && cid in CommentIds(db.posts[pid].comments) ==>
            var cs := db.posts[pid].comments;
            var requested := cs[IndexOf(CommentIds(cs), cid)];
            && (o.status == Unauthorized <==> requested.user != me)
            && (o.status == Ok <==> requested.user == me))
      && (o.status != Ok ==> o.after == db)
      && (o.status == Ok ==>
            var cs := db.posts[pid].comments;
            exists i :: 0 <= i < |cs| && cs[i].user == me
              && (forall k :: 0 <= k < i ==> cs[k].user != me)
              && o.after == PutPost(db, pid, db.posts[pid].(comments := cs[..i] + cs[i + 1..])))
  {
    var o := CommentDelete(db, me, pid, cid);
    if o.status == Ok {
      var cs := db.posts[pid].comments;
      var authors := CommentAuthors(cs);
      var found := IndexOf(CommentIds(cs), cid);
      assert authors[found] == me;
      var i := IndexOf(authors, me);
      SpliceAt(cs, i);
      forall k | 0 <= k < i
        ensures cs[k].user != me
      {
        IndexOfFirst(authors, me, k);
      }
    }
  }

  /** Two comments by the requester, the newer (id 2) first: asking to delete the older
      one (id 1) removes the newer one instead. */
  lemma CommentDeleteRemovesWrongComment()
    ensures var c2 := Comment(2, 0, "new", "", "", 20);
      var c1 := Comment(1, 0, "old", "", "", 10);
      var post := Post(5, 0, "d", File("l", "t"), "", "", [], [], [c2, c1], 0);
      var db := Db([], map[], map[5 := post]);
      && CommentDelete(db, 0, 5, 1).status == Ok
      && CommentDelete(db, 0, 5, 1).after.posts[5].comments == [c1]
      && CommentDeleteIntended(db, 0, 5, 1).after.posts[5].comments == [c2]
  {
    var c2 := Comment(2, 0, "new", "", "", 20);
    var c1 := Comment(1, 0, "old", "", "", 10);
    assert CommentIds([c2, c1]) == [2, 1];
    assert CommentAuthors([c2, c1]) == [0, 0];
  }

  /** The corrected delete removes the requested comment and only it. */
  lemma CommentDeleteIntendedEffect(db: Db, me: UserId, pid: PostId, cid: CommentId)
    ensures var o := CommentDeleteIntended(db, me, pid, cid);
      && (o.status == ServerError <==> pid !in db.posts)
      && (o.status == NotFound <==> pid in db.posts && cid !in CommentIds(db.posts[pid].comments))
      && (pid in db.posts && cid in CommentIds(db.posts[pid].comments) ==>
            var cs := db.posts[pid].comments;
            var requested := cs[IndexOf(CommentIds(cs), cid)];
            && (o.status == Unauthorized <==> requested.user != me)
            && (o.status == Ok <==> requested.user == me))
      && (o.status != Ok ==> o.after == db)
      && (o.status == Ok ==>
            var cs := db.posts[pid].comments;
            exists i :: 0 <= i < |cs| && cs[i].id == cid && cs[i].user == me
              && (forall k :: 0 <= k < i ==> cs[k].id != cid)
              && o.after == PutPost(db, pid, db.posts[pid].(comments := cs[..i] + cs[i + 1..])))
  {
    var o := CommentDeleteIntended(db, me, pid, cid);
    if o.status == Ok {
      var cs := db.posts[pid].comments;
      var i := IndexOf(CommentIds(cs), cid);
      SpliceAt(cs, i);
      forall k | 0 <= k < i
        ensures cs[k].id != cid
      {
        IndexOfFirst(CommentIds(cs), cid, k);
      }
    }
  }

  /** Deleting a comment right after adding it restores the post, as written and as
      intended: the new comment is both the first with its id and the requester's first. */
  lemma CommentDeleteUndoesAdd(db: Db, me: UserId, pid: PostId, text: string, cid: CommentId, now: int)
    requires CommentAdd(db, me, pid, text, cid, now).status == Ok
    ensures CommentDelete(CommentAdd(db, me, pid, text, cid, now).after, me, pid, cid) == Outcome(Ok, db)
    ensures CommentDeleteIntended(CommentAdd(db, me, pid, text, cid, now).after, me, pid, cid) == Outcome(Ok, db)
  {
    var post := db.posts[pid];
    var cs := CommentAdd(db, me, pid, text, cid, now).after.posts[pid].comments;
    assert CommentIds(cs)[0] == cid && CommentAuthors(cs)[0] == me;
    assert IndexOf(CommentIds(cs), cid) == 0;
    assert IndexOf(CommentAuthors(cs), me) == 0;
    assert Splice1(cs, 0) == post.comments;
    assert post.(comments := post.comments) == post;
  }

  method PostComment(store: Store, me: UserId, pid: PostId, text: string, cid: CommentId, now: int)
    returns (status: Status)
    modifies store
    ensures Outcome(status, store.State()) == CommentAdd(old(store.State()), me, pid, text, cid, now)
  {
    if text == "" {
      return BadRequest;
    }
    var user := FindUser(store.users, me);
    if user.None? || pid !in store.posts {
      return ServerError;
    }
    var post := store.posts[pid];
    var comment := Comment(cid, me, text, user.value.username, user.value.avatar, now);
    post := post.(comments := [comment] + post.comments);
    store.posts := store.posts[pid := post];
    return Ok;
  }

  method DeleteComment(store: Store, me: UserId, pid: PostId, cid: CommentId) returns (status: Status)
    modifies store
    ensures Outcome(status, store.State()) == CommentDelete(old(store.State()), me, pid, cid)
  {
    if pid !in store.posts {
      return ServerError;
    }
    var post := store.posts[pid];
    var found := IndexOf(CommentIds(post.comments), cid);
    if found == -1 {
      return NotFound;
    }
    if post.comments[found].user != me {
      return Unauthorized;
    }
    var removeIndex := IndexOf(CommentAuthors(post.comments), me);
    post := post.(comments := Splice1(post.comments, removeIndex));
    store.posts := store.posts[pid := post];
    return Ok;
  }

  // ---------------------------------------------------------------------------
  // DELETE api/posts/:id (lines 92-128)

  /** Every post a profile lists is a stored post written by that profile's owner. */
  ghost predicate PostsListedByOwner(db: Db)
  {
    forall u, q :: u in db.profiles && q in db.profiles[u].posts ==> q in db.posts && db.posts[q].user == u
  }

  /** 404 and 401 change nothing. Otherwise the post is removed first; a missing user or
      profile then throws (500) with the post already gone; else every reference to the
      post is filtered out of the requester's `profile.posts`. */
  function DeletePost(db: Db, me: UserId, pid: PostId): Outcome
  {
    if pid !in db.posts then Outcome(NotFound, db)
    else if db.posts[pid].user != me then Outcome(Unauthorized, db)
    else
      var removed := db.(posts := db.posts - {pid});
      if FindUser(db.users, me).None? || me !in db.profiles then Outcome(ServerError, removed)
      else
        var profile := db.profiles[me];
        Outcome(Ok, removed.(profiles := db.profiles[me := profile.(posts := Filter(profile.posts, (q: PostId) => q != pid))]))
  }

  lemma DeletePostEffect(db: Db, me: UserId, pid: PostId)
    ensures var o := DeletePost(db, me, pid);
      && (o.status == NotFound <==> pid !in db.posts)
      && (o.status == Unauthorized <==> pid in db.posts && db.posts[pid].user != me)
      && (o.status in {NotFound, Unauthorized} ==> o.after == db)
      && (o.status == ServerError <==>
            pid in db.posts && db.posts[pid].user == me && (FindUser(db.users, me).None? || me !in db.profiles))
      && (o.status == Ok <==>
            pid in db.posts && db.posts[pid].user == me && FindUser(db.users, me).Some? && me in db.profiles)
      && (o.status in {Ok, ServerError} ==> o.after.posts == db.posts - {pid} && o.after.users == db.users)
      && (o.status == ServerError ==> o.after.profiles == db.profiles)
      && (o.status == Ok ==>
            var before := db.profiles[me].posts;
            var after := o.after.profiles[me].posts;
            && o.after.profiles[me] == db.profiles[me].(posts := after)
            && pid !in after
            && IsSubseq(after, before)
            && (forall q :: q != pid ==> multiset(after)[q] == multiset(before)[q])
            && o.after.profiles.Keys == db.profiles.Keys
            && (forall u :: u in db.profiles && u != me ==> o.after.profiles[u] == db.profiles[u]))
  {
    var o := DeletePost(db, me, pid);
    if o.status == Ok {
      var before := db.profiles[me].posts;
      var keep := (q: PostId) => q != pid;
      FilterIsSubseq(before, keep);
      forall q | q != pid
        ensures multiset(Filter(before, keep))[q] == multiset(before)[q]
      {
        FilterCount(before, keep, q);
      }
    }
  }

  /** Removing a post and, from its owner's list, a subset of the references keeps the
      listing invariant. */
  lemma ListingAfterRemoval(db: Db, me: UserId, pid: PostId, kept: seq<PostId>)
    requires PostsListedByOwner(db) && me in db.profiles
    requires pid in db.posts && db.posts[pid].user == me
    requires forall q :: q in kept ==> q in db.profiles[me].posts && q != pid
    ensures PostsListedByOwner(db.(posts := db.posts - {pid}, profiles := db.profiles[me := db.profiles[me].(posts := kept)]))
  {
    var after := db.(posts := db.posts - {pid}, profiles := db.profiles[me := db.profiles[me].(posts := kept)]);
    forall u, q | u in after.profiles && q in after.profiles[u].posts
      ensures q in after.posts && after.posts[q].user == u
    {
      if u == me {
        assert q in db.profiles[me].posts;
      } else {
        assert q in db.profiles[u].posts;
      }
    }
  }

  /** Removing a post whose owner has no profile keeps the listing invariant. */
  lemma ListingAfterOrphanRemoval(db: Db, me: UserId, pid: PostId)
    requires PostsListedByOwner(db) && me !in db.profiles
    requires pid in db.posts && db.posts[pid].user == me
    ensures PostsListedByOwner(db.(posts := db.posts - {pid}))
  {
    var after := db.(posts := db.posts - {pid});
    forall u, q | u in after.profiles && q in after.profiles[u].posts
      ensures q in after.posts && after.posts[q].user == u
    {
      assert q in db.profiles[u].posts;
    }
  }

  /** Deleting keeps every profile's post list pointing at its owner's stored posts, as
      long as the requester, if they have a profile, also has a user record. */
  lemma DeletePostKeepsListing(db: Db, me: UserId, pid: PostId)
    requires PostsListedByOwner(db)
    requires me in db.profiles ==> FindUser(db.users, me).Some?
    ensures PostsListedByOwner(DeletePost(db, me, pid).after)
  {
    var o := DeletePost(db, me, pid);
    if o.status == ServerError {
      assert o.after == db.(posts := db.posts - {pid});
      ListingAfterOrphanRemoval(db, me, pid);
    } else if o.status == Ok {
      var kept := Filter(db.profiles[me].posts, (x: PostId) => x != pid);
      assert o.after == db.(posts := db.posts - {pid}, profiles := db.profiles[me := db.profiles[me].(posts := kept)]);
      ListingAfterRemoval(db, me, pid, kept);
    }
  }

  /** Every stored post is listed in its owner's profile. */
  ghost predicate StoredPostsListed(db: Db)
  {
    forall q :: q in db.posts ==> db.posts[q].user in db.profiles && q in db.profiles[db.posts[q].user].posts
  }

  /** Deleting keeps every remaining stored post listed in its owner's profile, on every
      path: only the deleted post leaves `posts`, and only its references leave the
      owner's list. */
  lemma DeletePostKeepsPostsListed(db: Db, me: UserId, pid: PostId)
    requires StoredPostsListed(db)
    ensures StoredPostsListed(DeletePost(db, me, pid).after)
  {
    var o := DeletePost(db, me, pid);
    if o.status == Ok {
      var keep := (x: PostId) => x != pid;
      var kept := Filter(db.profiles[me].posts, keep);
      assert o.after == db.(posts := db.posts - {pid}, profiles := db.profiles[me := db.profiles[me].(posts := kept)]);
      forall q | q in o.after.posts
        ensures o.after.posts[q].user in o.after.profiles && q in o.after.profiles[o.after.posts[q].user].posts
      {
        var owner := db.posts[q].user;
        if owner == me {
          assert q in db.profiles[me].posts && keep(q);
        }
      }
    } else if o.status == ServerError {
      assert o.after == db.(posts := db.posts - {pid});
    }
  }

  method RemovePost(store: Store, me: UserId, pid: PostId) returns (status: Status)
    modifies store
    ensures Outcome(status, store.State()) == DeletePost(old(store.State()), me, pid)
  {
    var user := FindUser(store.users, me);
    if pid !in store.posts {
      return NotFound;
    }
    if store.posts[pid].user != me {
      return Unauthorized;
    }
    store.posts := store.posts - {pid};
    if user.None? || me !in store.profiles {
      return ServerError;
    }
    var profile := store.profiles[me];
    profile := profile.(posts := Filter(profile.posts, (q: PostId) => q != pid));
    store.profiles := store.profiles[me := profile];
    return Ok;
  }
}
