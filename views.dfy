/** Read-only projections of routes/api/profile.js (post summaries, saved posts). The
    queries `Post.find(...).sort({ date: -1 })` are store lookups: their answer, every
    post newest first, is the parameter `byDate`. */
module ProfileViews {
  import opened Models
  import opened JsArray

  /** `{ _id, file, likes: post.likes.length, comments: post.comments.length }`. */
  datatype PostSummary = PostSummary(id: PostId, file: File, likes: nat, comments: nat)

  function Summary(p: Post): PostSummary
  {
    PostSummary(p.id, p.file, |p.likes|, |p.comments|)
  }

  /** GET api/profile/posts/:username (lines 178-195): the author's posts, as the query
      returned them, each reduced to its id, file and two counts. */
  function Summaries(posts: seq<Post>): (r: seq<PostSummary>)
    ensures |r| == |posts|
    ensures forall i :: 0 <= i < |posts| ==>
      r[i].id == posts[i].id && r[i].file == posts[i].file
      && r[i].likes == |posts[i].likes| && r[i].comments == |posts[i].comments|
  {
    seq(|posts|, i requires 0 <= i < |posts| => Summary(posts[i]))
  }

  /** The filter of GET api/profile/saved/me (lines 203-206): the posts whose `saved`
      list holds the requester, in the order the query returned them. */
  function SavedPosts(byDate: seq<Post>, me: UserId): (r: seq<Post>)
    ensures forall p :: p in r <==> p in byDate && me in p.saved
    ensures IsSubseq(r, byDate)
  {
    FilterIsSubseq(byDate, (p: Post) => exists k :: 0 <= k < |p.saved| && p.saved[k] == me);
    Filter(byDate, (p: Post) => exists k :: 0 <= k < |p.saved| && p.saved[k] == me)
  }

  /** GET api/profile/saved/me (lines 200-219): the summary of every post the requester
      saved, and of nothing else. */
  function SavedMe(byDate: seq<Post>, me: UserId): (r: seq<PostSummary>)
    ensures |r| <= |byDate|
    ensures forall x :: x in r <==> exists p :: p in byDate && me in p.saved && x == Summary(p)
  {
    var kept := SavedPosts(byDate, me);
    var r := Summaries(kept);
    assert forall i :: 0 <= i < |kept| ==> r[i] == Summary(kept[i]);
    assert forall x :: x in r ==> exists p :: p in kept && x == Summary(p);
    assert forall p :: p in kept ==> Summary(p) in r;
    r
  }
}

/** Read-only projections of routes/api/posts.js: every post, or one post, with the
    requester's `saved` flag in place of the post's `saved` list. */
module PostViews {
  import opened Outcomes
  import opened Models

  /** `{ ...post, saved: post.saved.some(elem => elem.user.toString() === req.user.id) }`. */
  datatype PostView = PostView(post: Post, saved: bool)

  function ViewFor(p: Post, me: UserId): PostView
  {
    PostView(p, exists k :: 0 <= k < |p.saved| && p.saved[k] == me)
  }

  /** GET api/posts (lines 49-61): every post, newest first, each flagged with whether the
      requester saved it. */
  function AllWithSavedFlag(byDate: seq<Post>, me: UserId): (r: seq<PostView>)
    ensures |r| == |byDate|
    ensures forall i :: 0 <= i < |r| ==> r[i].post == byDate[i] && (r[i].saved <==> me in byDate[i].saved)
  {
    seq(|byDate|, i requires 0 <= i < |byDate| => ViewFor(byDate[i], me))
  }

  /** GET api/posts/:id (lines 66-87): 404 for an unknown id. */
  function GetPost(posts: map<PostId, Post>, id: PostId, me: UserId): (r: Result<PostView>)
    ensures r.Failure? <==> id !in posts
    ensures r.Failure? ==> r.status == NotFound
    ensures r.Success? ==> r.value.post == posts[id] && (r.value.saved <==> me in posts[id].saved)
  {
    if id !in posts then Failure(NotFound) else Success(ViewFor(posts[id], me))
  }
}

/** How the read views relate to each other and to the handlers that change what they
    show: the saved list of GET api/profile/saved/me is the flagged part of GET api/posts,
    a single post from GET api/posts/:id is the matching entry of the listing, and a save,
    unsave or like shows up in the flag and the counts. */
module ViewAgreement {
  import opened Outcomes
  import opened Models
  import opened JsArray
  import opened ProfileViews
  import opened PostViews
  import opened PostActions

  /** The posts of the flagged entries, in order. */
  function FlaggedPosts(views: seq<PostView>): seq<Post>
  {
    if |views| == 0 then []
    else (if views[0].saved then [views[0].post] else []) + FlaggedPosts(views[1..])
  }

  /** The posts GET api/profile/saved/me keeps are exactly those GET api/posts flags as
      saved, in the same order. */
  lemma {:induction false} FlaggedAreSaved(byDate: seq<Post>, me: UserId)
    ensures FlaggedPosts(AllWithSavedFlag(byDate, me)) == SavedPosts(byDate, me)
    decreases |byDate|
  {
    if |byDate| > 0 {
      var views := AllWithSavedFlag(byDate, me);
      assert views[1..] == AllWithSavedFlag(byDate[1..], me);
      FlaggedAreSaved(byDate[1..], me);
      assert views[0].saved <==> me in byDate[0].saved;
    }
  }

  /** The saved-posts page summarises exactly the posts the listing flags as saved. */
  lemma SavedMeFromFlags(byDate: seq<Post>, me: UserId)
    ensures SavedMe(byDate, me) == Summaries(FlaggedPosts(AllWithSavedFlag(byDate, me)))
  {
    FlaggedAreSaved(byDate, me);
  }

  /** A single post read by id is the listing's entry for that post. */
  lemma GetPostMatchesListing(posts: map<PostId, Post>, byDate: seq<Post>, id: PostId, me: UserId, i: int)
    requires 0 <= i < |byDate| && id in posts && posts[id] == byDate[i]
    ensures GetPost(posts, id, me) == Success(AllWithSavedFlag(byDate, me)[i])
  {
    assert GetPost(posts, id, me).value.saved == AllWithSavedFlag(byDate, me)[i].saved;
  }

  /** After a successful save the post reads back flagged as saved. */
  lemma SaveSetsFlag(db: Db, me: UserId, pid: PostId)
    requires Save(db, me, pid).status == Ok
    ensures var after := Save(db, me, pid).after;
      GetPost(after.posts, pid, me) == Success(PostView(after.posts[pid], true))
  {
    SaveEffect(db, me, pid);
    var after := Save(db, me, pid).after;
    assert after.posts[pid].saved[0] == me;
  }

  /** After a successful corrected unsave of a post saved once, the post reads back
      unflagged. */
  lemma UnsaveClearsFlag(db: Db, me: UserId, pid: PostId)
    requires UnsaveIntended(db, me, pid).status == Ok
    requires NoRepeats(db.posts[pid].saved)
    ensures var after := UnsaveIntended(db, me, pid).after;
      GetPost(after.posts, pid, me) == Success(PostView(after.posts[pid], false))
  {
    var s := db.posts[pid].saved;
    SpliceIndexOfRemovesAll(s, me);
    assert UnsaveIntended(db, me, pid).after.posts[pid].saved == Splice1(s, IndexOf(s, me));
  }

  /** A successful like raises the post's summarised like count by one and changes
      nothing else in its summary. */
  lemma LikeCountsInSummary(db: Db, me: UserId, pid: PostId)
    requires Like(db, me, pid).status == Ok
    ensures var before := Summary(db.posts[pid]);
      Summary(Like(db, me, pid).after.posts[pid]) == before.(likes := before.likes + 1)
  {
    LikeEffect(db, me, pid);
  }

  /** A successful comment raises the post's summarised comment count by one and changes
      nothing else in its summary. */
  lemma CommentCountsInSummary(db: Db, me: UserId, pid: PostId, text: string, cid: CommentId, now: int)
    requires CommentAdd(db, me, pid, text, cid, now).status == Ok
    ensures var before := Summary(db.posts[pid]);
      Summary(CommentAdd(db, me, pid, text, cid, now).after.posts[pid]) == before.(comments := before.comments + 1)
  {
    CommentAddEffect(db, me, pid, text, cid, now);
  }
}
