/** GET api/posts/you-following/:username (routes/api/posts.js lines 320-368): the posts
    of the accounts a profile follows, then its own, loaded, de-duplicated by a nested
    splice loop and sorted newest first. */
module FollowingFeed {
  import opened Outcomes
  import opened Models
  import opened JsArray

  // ---------------------------------------------------------------------------
  // Collecting the post references (lines 322-337)

  /** `Profile.findOne({ user: follow.user })` for every followed account, in `following`
      order (`Promise.all` keeps the order of its input); `None` is the null a missing
      profile gives. */
  function FollowedLists(following: seq<UserId>, profiles: map<UserId, Profile>): (r: seq<Option<seq<PostId>>>)
    ensures |r| == |following|
  {
    seq(|following|, i requires 0 <= i < |following| =>
      if following[i] in profiles then Some(profiles[following[i]].posts) else None)
  }

  /** The null filter at line 331. */
  function Present<T(!new)>(opts: seq<Option<T>>): (r: seq<T>)
    ensures |r| <= |opts|
    ensures forall x :: x in r <==> Some(x) in opts
  {
    if |opts| == 0 then []
    else
      assert opts == [opts[0]] + opts[1..];
      (if opts[0].Some? then [opts[0].value] else []) + Present(opts[1..])
  }

  /** The refs the handler loads: the followed lists with the profile's own `posts`
      pushed last, concatenated by `reduce`. */
  function FeedRefs(me: Profile, profiles: map<UserId, Profile>): seq<PostId>
  {
    Flatten(Present(FollowedLists(me.following, profiles)) + [me.posts])
  }

  /** Reference reading of the fan-out: each followed account's posts in turn, nothing
      for an account without a profile. */
  function FollowedRefs(following: seq<UserId>, profiles: map<UserId, Profile>): seq<PostId>
  {
    if |following| == 0 then []
    else (if following[0] in profiles then profiles[following[0]].posts else []) + FollowedRefs(following[1..], profiles)
  }

  lemma {:induction false} FlattenFollowed(following: seq<UserId>, profiles: map<UserId, Profile>)
    ensures Flatten(Present(FollowedLists(following, profiles))) == FollowedRefs(following, profiles)
    decreases |following|
  {
    if |following| > 0 {
      var lists := FollowedLists(following, profiles);
      assert lists[1..] == FollowedLists(following[1..], profiles);
      FlattenFollowed(following[1..], profiles);
      if following[0] in profiles {
        FlattenCons(profiles[following[0]].posts, Present(lists[1..]));
      } else {
        assert Present(lists) == Present(lists[1..]);
      }
    }
  }

  /** The refs come in a fixed order: the followed accounts' posts in `following` order,
      then the profile's own. */
  lemma FeedRefsOrder(me: Profile, profiles: map<UserId, Profile>)
    ensures FeedRefs(me, profiles) == FollowedRefs(me.following, profiles) + me.posts
  {
    FlattenSnoc(Present(FollowedLists(me.following, profiles)), me.posts);
    FlattenFollowed(me.following, profiles);
  }

  // ---------------------------------------------------------------------------
  // Loading (lines 339-348)

  /** A document as `findById(ref).lean()` answers it: a fresh object. Two loads are
      different objects even for the same post; `handle` tells them apart and is the
      position of the call that produced it. */
  datatype Loaded = Loaded(handle: nat, post: Post)

  /** Some load in `r` came from the call with handle `h`. */
  predicate LoadedBy(r: seq<Loaded>, h: nat)
  {
    exists k :: 0 <= k < |r| && r[k].handle == h
  }

  /** A load found in the tail is found in the whole. */
  lemma LoadedByShift(r: seq<Loaded>, rest: seq<Loaded>, h: nat)
    requires LoadedBy(rest, h)
    requires r == rest || (|r| > 0 && r[1..] == rest)
    ensures LoadedBy(r, h)
  {
    var k :| 0 <= k < |rest| && rest[k].handle == h;
    if r != rest {
      assert r[k + 1] == rest[k];
    }
  }

  /** Every ref loaded in order, the misses dropped by the null filter at line 349; the
      call for `refs[i]` gets handle `start + i`. */
  function Resolve(refs: seq<PostId>, posts: map<PostId, Post>, start: nat): (r: seq<Loaded>)
    ensures |r| <= |refs|
    ensures forall i :: 0 <= i < |r| ==>
      start <= r[i].handle < start + |refs| && refs[r[i].handle - start] in posts
      && r[i].post == posts[refs[r[i].handle - start]]
    ensures forall i, j :: 0 <= i < j < |r| ==> r[i].handle < r[j].handle
    ensures forall h {:trigger LoadedBy(r, h)} ::
      start <= h < start + |refs| && refs[h - start] in posts ==> LoadedBy(r, h)
    decreases |refs|
  {
    if |refs| == 0 then []
    else
      var rest := Resolve(refs[1..], posts, start + 1);
      var r := if refs[0] in posts then [Loaded(start, posts[refs[0]])] + rest else rest;
      ResolveStepLoads(refs, posts, start, rest, r);
      r
  }

  /** The step of `Resolve`'s completeness: the head call's load, if any, is in front of
      the tail's loads. */
  lemma ResolveStepLoads(refs: seq<PostId>, posts: map<PostId, Post>, start: nat, rest: seq<Loaded>, r: seq<Loaded>)
    requires |refs| > 0
    requires forall h {:trigger LoadedBy(rest, h)} ::
      start + 1 <= h < start + |refs| && refs[1..][h - (start + 1)] in posts ==> LoadedBy(rest, h)
    requires r == if refs[0] in posts then [Loaded(start, posts[refs[0]])] + rest else rest
    ensures forall h {:trigger LoadedBy(r, h)} ::
      start <= h < start + |refs| && refs[h - start] in posts ==> LoadedBy(r, h)
  {
    forall h | start <= h < start + |refs| && refs[h - start] in posts
      ensures LoadedBy(r, h)
    {
      if h == start {
        assert r[0].handle == start;
      } else {
        assert refs[1..][h - (start + 1)] == refs[h - start];
        LoadedByShift(r, rest, h);
      }
    }
  }

  function PostsOf(ls: seq<Loaded>): (r: seq<Post>)
    ensures |r| == |ls| && forall i :: 0 <= i < |ls| ==> r[i] == ls[i].post
  {
    seq(|ls|, i requires 0 <= i < |ls| => ls[i].post)
  }

  /** Nothing stored is dropped: every ref with a stored post is loaded. */
  lemma {:induction false} ResolveComplete(refs: seq<PostId>, posts: map<PostId, Post>, start: nat, i: nat)
    requires i < |refs| && refs[i] in posts
    ensures posts[refs[i]] in PostsOf(Resolve(refs, posts, start))
    decreases |refs|
  {
    var r := Resolve(refs, posts, start);
    var rest := Resolve(refs[1..], posts, start + 1);
    if i == 0 {
      assert PostsOf(r)[0] == posts[refs[0]];
    } else {
      ResolveComplete(refs[1..], posts, start + 1, i - 1);
      assert refs[1..][i - 1] == refs[i];
      if refs[0] in posts {
        assert PostsOf(r) == [posts[refs[0]]] + PostsOf(rest);
      } else {
        assert r == rest;
      }
    }
  }

  /** A post is loaded exactly when some ref names it and it is stored. */
  lemma ResolvedPosts(refs: seq<PostId>, posts: map<PostId, Post>, x: Post)
    ensures x in PostsOf(Resolve(refs, posts, 0)) <==>
      exists i :: 0 <= i < |refs| && refs[i] in posts && posts[refs[i]] == x
  {
    var ps := PostsOf(Resolve(refs, posts, 0));
    if x in ps {
      var k :| 0 <= k < |ps| && ps[k] == x;
      var i := Resolve(refs, posts, 0)[k].handle;
      assert 0 <= i < |refs| && refs[i] in posts && posts[refs[i]] == x;
    }
    if exists i :: 0 <= i < |refs| && refs[i] in posts && posts[refs[i]] == x {
      var i :| 0 <= i < |refs| && refs[i] in posts && posts[refs[i]] == x;
      ResolveComplete(refs, posts, 0, i);
    }
  }

  // ---------------------------------------------------------------------------
  // The de-duplication loop (lines 352-358)

  /** The inner loop for a fixed `i`, from `j` on. A match is spliced out and `j` still
      advances, so the element that slid into position `j` is never compared. */
  function Sweep<T, K(==)>(s: seq<T>, key: T -> K, i: nat, j: nat): (r: seq<T>)
    requires i < j
    ensures |r| <= |s|
    ensures i < |s| ==> i < |r| && r[..i + 1] == s[..i + 1]
    decreases |s| - j
  {
    if |s| <= j then s
    else if key(s[i]) == key(s[j]) then Sweep(s[..j] + s[j + 1..], key, i, j + 1)
    else Sweep(s, key, i, j + 1)
  }

  /** The outer loop from `i` on; it stops once `i` reaches `posts.length - 1`. */
  function DedupFrom<T, K(==)>(s: seq<T>, key: T -> K, i: nat): (r: seq<T>)
    ensures |r| <= |s|
    decreases |s| - i
  {
    if |s| <= i + 1 then s else DedupFrom(Sweep(s, key, i, i + 1), key, i + 1)
  }

  function Dedup<T, K(==)>(s: seq<T>, key: T -> K): (r: seq<T>)
    ensures |r| <= |s|
  {
    DedupFrom(s, key, 0)
  }

  /** The loop as written, splicing the list in place. */
  method SpliceDuplicates<T, K(==)>(a: seq<T>, key: T -> K) returns (posts: seq<T>)
    ensures posts == Dedup(a, key)
  {
    posts := a;
    var i := 0;
    while i < |posts| - 1
      invariant DedupFrom(posts, key, i) == Dedup(a, key)
      decreases |posts| - i
    {
      var j := i + 1;
      ghost var before := |posts|;
      while j < |posts|
        invariant i < j && i < |posts| <= before
        invariant DedupFrom(Sweep(posts, key, i, j), key, i + 1) == Dedup(a, key)
        decreases |posts| - j
      {
        if key(posts[i]) == key(posts[j]) {
          posts := posts[..j] + posts[j + 1..];
        }
        j := j + 1;
      }
      i := i + 1;
    }
  }

  lemma {:induction false} SweepIsSubseq<T, K>(s: seq<T>, key: T -> K, i: nat, j: nat)
    requires i < j
    ensures IsSubseq(Sweep(s, key, i, j), s)
    decreases |s| - j
  {
    if |s| <= j {
      SubseqRefl(s);
    } else if key(s[i]) == key(s[j]) {
      var s' := s[..j] + s[j + 1..];
      SweepIsSubseq(s', key, i, j + 1);
      DropOneSubseq(s, j);
      SubseqTrans(Sweep(s', key, i, j + 1), s', s);
    } else {
      SweepIsSubseq(s, key, i, j + 1);
    }
  }

  /** The loop's output keeps the order of its input. */
  lemma {:induction false} DedupIsSubseq<T, K>(s: seq<T>, key: T -> K, i: nat)
    ensures IsSubseq(DedupFrom(s, key, i), s)
    decreases |s| - i
  {
    if |s| <= i + 1 {
      SubseqRefl(s);
    } else {
      var s' := Sweep(s, key, i, i + 1);
      SweepIsSubseq(s, key, i, i + 1);
      DedupIsSubseq(s', key, i + 1);
      SubseqTrans(DedupFrom(s', key, i + 1), s', s);
    }
  }

  /** Removing an element whose key is not `k` leaves the first `k` where it was. */
  lemma {:induction false} DropOtherKey<T, K>(s: seq<T>, key: T -> K, j: nat, k: K)
    requires j < |s| && key(s[j]) != k
    ensures FirstWith(s[..j] + s[j + 1..], key, k) == FirstWith(s, key, k)
    decreases j
  {
    var s' := s[..j] + s[j + 1..];
    if j == 0 {
      assert s' == s[1..];
    } else {
      assert s'[0] == s[0];
      assert s'[1..] == s[1..][..j - 1] + s[1..][j..];
      if key(s[0]) != k {
        DropOtherKey(s[1..], key, j - 1, k);
      }
    }
  }

  /** Removing a later duplicate of an earlier key changes no first occurrence. */
  lemma {:induction false} DropLaterDuplicate<T, K>(s: seq<T>, key: T -> K, i: nat, j: nat, k: K)
    requires i < j < |s| && key(s[i]) == key(s[j])
    ensures FirstWith(s[..j] + s[j + 1..], key, k) == FirstWith(s, key, k)
    decreases i
  {
    var s' := s[..j] + s[j + 1..];
    assert s'[0] == s[0];
    if key(s[0]) != k {
      assert s'[1..] == s[1..][..j - 1] + s[1..][j..];
      if i == 0 {
        DropOtherKey(s[1..], key, j - 1, k);
      } else {
        DropLaterDuplicate(s[1..], key, i - 1, j - 1, k);
      }
    }
  }

  lemma {:induction false} SweepKeepsFirst<T, K>(s: seq<T>, key: T -> K, i: nat, j: nat, k: K)
    requires i < j
    ensures FirstWith(Sweep(s, key, i, j), key, k) == FirstWith(s, key, k)
    decreases |s| - j
  {
    if j < |s| {
      if key(s[i]) == key(s[j]) {
        var s' := s[..j] + s[j + 1..];
        DropLaterDuplicate(s, key, i, j, k);
        SweepKeepsFirst(s', key, i, j + 1, k);
      } else {
        SweepKeepsFirst(s, key, i, j + 1, k);
      }
    }
  }

  /** The loop keeps the first occurrence of every key, so it never loses a key. */
  lemma {:induction false} DedupKeepsFirst<T, K>(s: seq<T>, key: T -> K, i: nat, k: K)
    ensures FirstWith(DedupFrom(s, key, i), key, k) == FirstWith(s, key, k)
    decreases |s| - i
  {
    if i + 1 < |s| {
      SweepKeepsFirst(s, key, i, i + 1, k);
      DedupKeepsFirst(Sweep(s, key, i, i + 1), key, i + 1, k);
    }
  }

  lemma {:induction false} SweepDistinct<T, K>(s: seq<T>, key: T -> K, i: nat, j: nat)
    requires i < j && DistinctKeys(s, key)
    ensures Sweep(s, key, i, j) == s
    decreases |s| - j
  {
    if j < |s| {
      SweepDistinct(s, key, i, j + 1);
    }
  }

  /** On a list without repeated keys the loop changes nothing. */
  lemma {:induction false} DedupDistinct<T, K>(s: seq<T>, key: T -> K, i: nat)
    requires DistinctKeys(s, key)
    ensures DedupFrom(s, key, i) == s
    decreases |s| - i
  {
    if i + 1 < |s| {
      SweepDistinct(s, key, i, i + 1);
      DedupDistinct(s, key, i + 1);
    }
  }

  /** Three copies of one key come out as two: the third slides into the position just
      spliced and is skipped. */
  lemma DedupMissesThird(x: Post)
    ensures Dedup([x, x, x], (p: Post) => p.id) == [x, x]
  {
    var key := (p: Post) => p.id;
    assert [x, x, x][..1] + [x, x, x][2..] == [x, x];
    assert Sweep([x, x], key, 0, 2) == [x, x];
    assert Sweep([x, x, x], key, 0, 1) == [x, x];
    assert DedupFrom([x, x], key, 1) == [x, x];
  }

  // ---------------------------------------------------------------------------
  // Sorting (line 361)

  /** `Date.parse(post.date)`: the date's string form drops the milliseconds. Dates are
      milliseconds since the epoch. */
  function Seconds(p: Post): int
  {
    p.date / 1000
  }

  ghost predicate NewestFirst(s: seq<Post>)
  {
    forall i, j :: 0 <= i < j < |s| ==> Seconds(s[i]) >= Seconds(s[j])
  }

  /** Places `p` before the first entry that is not newer. */
  function Insert(p: Post, s: seq<Post>): (r: seq<Post>)
    ensures multiset(r) == multiset(s) + multiset{p}
  {
    if |s| == 0 then [p]
    else if Seconds(s[0]) <= Seconds(p) then [p] + s
    else
      assert s == [s[0]] + s[1..];
      [s[0]] + Insert(p, s[1..])
  }

  /** Dropping the newest entry keeps the rest newest first. */
  lemma NewestFirstTail(s: seq<Post>)
    requires |s| > 0 && NewestFirst(s)
    ensures NewestFirst(s[1..])
  {
    forall i, j | 0 <= i < j < |s[1..]|
      ensures Seconds(s[1..][i]) >= Seconds(s[1..][j])
    {
      assert s[1..][i] == s[i + 1] && s[1..][j] == s[j + 1];
    }
  }

  lemma {:induction false} InsertNewestFirst(p: Post, s: seq<Post>)
    requires NewestFirst(s)
    ensures NewestFirst(Insert(p, s))
    decreases |s|
  {
    if |s| > 0 && Seconds(p) < Seconds(s[0]) {
      var rest := Insert(p, s[1..]);
      NewestFirstTail(s);
      InsertNewestFirst(p, s[1..]);
      var r := [s[0]] + rest;
      forall j | 0 < j < |r|
        ensures Seconds(s[0]) >= Seconds(r[j])
      {
        assert r[j] == rest[j - 1] && rest[j - 1] in multiset(rest);
        if r[j] != p {
          var k :| 0 <= k < |s[1..]| && s[1..][k] == r[j];
          assert s[k + 1] == r[j];
        }
      }
    }
  }

  /** `sort((a, b) => Date.parse(b.date) - Date.parse(a.date))`: newest first, and, the
      sort being stable, posts of the same second in their earlier order. */
  function SortByDate(s: seq<Post>): (r: seq<Post>)
    ensures multiset(r) == multiset(s)
    ensures NewestFirst(r)
  {
    if |s| == 0 then []
    else
      assert s == [s[0]] + s[1..];
      var rest := SortByDate(s[1..]);
      InsertNewestFirst(s[0], rest);
      Insert(s[0], rest)
  }

  /** The posts of one second, in order. */
  function AtSecond(s: seq<Post>, t: int): seq<Post>
  {
    if |s| == 0 then [] else (if Seconds(s[0]) == t then [s[0]] else []) + AtSecond(s[1..], t)
  }

  lemma AtSecondCons(x: Post, s: seq<Post>, t: int)
    ensures AtSecond([x] + s, t) == (if Seconds(x) == t then [x] else []) + AtSecond(s, t)
  {
    assert ([x] + s)[1..] == s;
  }

  lemma InsertPast(p: Post, s: seq<Post>)
    requires |s| > 0 && Seconds(p) < Seconds(s[0])
    ensures Insert(p, s) == [s[0]] + Insert(p, s[1..])
  {
  }

  lemma AtSecondHead(s: seq<Post>, t: int)
    requires |s| > 0
    ensures AtSecond(s, t) == (if Seconds(s[0]) == t then [s[0]] else []) + AtSecond(s[1..], t)
  {
  }

  /** Two pieces, one of them empty, can be concatenated in either order. */
  lemma SwapEmpty(a: seq<Post>, b: seq<Post>, c: seq<Post>)
    requires a == [] || b == []
    ensures a + (b + c) == b + (a + c)
  {
    if a == [] {
      assert a + (b + c) == b + c && a + c == c;
    } else {
      assert b + (a + c) == a + c && b + c == c;
    }
  }

  /** The step of `InsertAtSecond` when `p` goes after the head. */
  lemma InsertAtSecondPast(p: Post, s: seq<Post>, t: int)
    requires |s| > 0 && Seconds(p) < Seconds(s[0])
    requires AtSecond(Insert(p, s[1..]), t) == (if Seconds(p) == t then [p] else []) + AtSecond(s[1..], t)
    ensures AtSecond(Insert(p, s), t) == (if Seconds(p) == t then [p] else []) + AtSecond(s, t)
  {
    var early := if Seconds(s[0]) == t then [s[0]] else [];
    var here := if Seconds(p) == t then [p] else [];
    var tail := AtSecond(s[1..], t);
    InsertPast(p, s);
    AtSecondCons(s[0], Insert(p, s[1..]), t);
    AtSecondHead(s, t);
    SwapEmpty(early, here, tail);
  }

  lemma {:induction false} InsertAtSecond(p: Post, s: seq<Post>, t: int)
    requires NewestFirst(s)
    ensures AtSecond(Insert(p, s), t) == (if Seconds(p) == t then [p] else []) + AtSecond(s, t)
    decreases |s|
  {
    if |s| == 0 || Seconds(s[0]) <= Seconds(p) {
      assert Insert(p, s) == [p] + s;
      AtSecondCons(p, s, t);
    } else {
      NewestFirstTail(s);
      InsertAtSecond(p, s[1..], t);
      InsertAtSecondPast(p, s, t);
    }
  }

  /** The sort is stable: the posts of any one second keep their relative order. */
  lemma {:induction false} SortIsStable(s: seq<Post>, t: int)
    ensures AtSecond(SortByDate(s), t) == AtSecond(s, t)
    decreases |s|
  {
    if |s| > 0 {
      SortIsStable(s[1..], t);
      InsertAtSecond(s[0], SortByDate(s[1..]), t);
    }
  }

  // ---------------------------------------------------------------------------
  // The handler

  /** `found` is the owner of the profile `Profile.findOne({ username })` answered, `None`
      for null, which makes `profile.following` throw (500). */
  function Feed(db: Db, found: Option<UserId>): (r: Result<seq<Post>>)
    requires found.Some? ==> found.value in db.profiles
    ensures r.Failure? <==> found.None?
  {
    if found.None? then Failure(ServerError)
    else
      var loaded := Resolve(FeedRefs(db.profiles[found.value], db.profiles), db.posts, 0);
      Success(SortByDate(PostsOf(Dedup(loaded, (l: Loaded) => l.handle))))
  }

  method YouFollowing(store: Store, found: Option<UserId>) returns (r: Result<seq<Post>>)
    requires found.Some? ==> found.value in store.profiles
    ensures r == Feed(store.State(), found)
  {
    if found.None? {
      return Failure(ServerError);
    }
    var profile := store.profiles[found.value];
    var postsIds := Present(FollowedLists(profile.following, store.profiles));
    postsIds := postsIds + [profile.posts];
    var refs := Flatten(postsIds);
    var loaded := Resolve(refs, store.posts, 0);
    loaded := SpliceDuplicates(loaded, (l: Loaded) => l.handle);
    return Success(SortByDate(PostsOf(loaded)));
  }

  /** As written the loop compares object identities, which no two loads share, so it
      removes nothing: the feed is every loaded post, sorted. */
  lemma FeedDedupRemovesNothing(db: Db, found: UserId)
    requires found in db.profiles
    ensures Feed(db, Some(found)) ==
      Success(SortByDate(PostsOf(Resolve(FeedRefs(db.profiles[found], db.profiles), db.posts, 0))))
  {
    var loaded := Resolve(FeedRefs(db.profiles[found], db.profiles), db.posts, 0);
    DedupDistinct(loaded, (l: Loaded) => l.handle, 0);
  }

  /** The feed holds exactly the stored posts its refs name, newest first, each as many
      times as it is loaded: one load per ref to a stored post (`Resolve`). */
  lemma FeedContents(db: Db, found: UserId, x: Post)
    requires found in db.profiles
    ensures var refs := FeedRefs(db.profiles[found], db.profiles);
      && NewestFirst(Feed(db, Some(found)).value)
      && multiset(Feed(db, Some(found)).value) == multiset(PostsOf(Resolve(refs, db.posts, 0)))
      && (x in Feed(db, Some(found)).value <==> exists i :: 0 <= i < |refs| && refs[i] in db.posts && db.posts[refs[i]] == x)
  {
    var refs := FeedRefs(db.profiles[found], db.profiles);
    FeedDedupRemovesNothing(db, found);
    ResolvedPosts(refs, db.posts, x);
    var ps := PostsOf(Resolve(refs, db.posts, 0));
    assert x in SortByDate(ps) <==> x in multiset(ps);
  }

  // A profile that follows account 2 twice; account 2 wrote one post.
  const repeated := Post(9, 2, "d", File("l", "t"), "", "", [], [], [], 0)
  const twiceDb := Db([], map[1 := Profile(1, "", "", "me", [], [], [2, 2], []),
                              2 := Profile(2, "", "", "other", [9], [1, 1], [], [])],
                      map[9 := repeated])

  lemma TwiceRefs()
    ensures FeedRefs(twiceDb.profiles[1], twiceDb.profiles) == [9, 9]
  {
    FeedRefsOrder(twiceDb.profiles[1], twiceDb.profiles);
    assert FollowedRefs([2], twiceDb.profiles) == [9];
  }

  lemma TwiceLoads()
    ensures PostsOf(Resolve([9, 9], twiceDb.posts, 0)) == [repeated, repeated]
  {
    assert Resolve([9], twiceDb.posts, 1) == [Loaded(1, repeated)];
  }

  lemma TwiceSort()
    ensures SortByDate([repeated, repeated]) == [repeated, repeated]
  {
    assert [repeated, repeated][1..] == [repeated];
    assert SortByDate([repeated]) == [repeated];
    assert Insert(repeated, [repeated]) == [repeated, repeated];
  }

  /** Following one account twice (follow/add has no duplicate check) shows its posts
      twice. */
  lemma FeedRepeatsPosts()
    ensures Feed(twiceDb, Some(1)) == Success([repeated, repeated])
  {
    TwiceRefs();
    TwiceLoads();
    TwiceSort();
    FeedDedupRemovesNothing(twiceDb, 1);
  }

  /** A profile that follows no one sees exactly its own stored posts, newest first. */
  lemma FeedOfOwnPosts(db: Db, found: UserId)
    requires found in db.profiles && db.profiles[found].following == []
    ensures Feed(db, Some(found)) == Success(SortByDate(PostsOf(Resolve(db.profiles[found].posts, db.posts, 0))))
  {
    FeedRefsOrder(db.profiles[found], db.profiles);
    assert FeedRefs(db.profiles[found], db.profiles) == db.profiles[found].posts;
    FeedDedupRemovesNothing(db, found);
  }

  // A follows B and C; B wrote p1 and p2, C wrote p3, A wrote p4, each a second newer
  // than the one before.
  const p1 := Post(11, 2, "", File("", ""), "", "", [], [], [], 1000)
  const p2 := Post(12, 2, "", File("", ""), "", "", [], [], [], 2000)
  const p3 := Post(13, 3, "", File("", ""), "", "", [], [], [], 3000)
  const p4 := Post(14, 1, "", File("", ""), "", "", [], [], [], 4000)
  const sampleDb := Db([], map[1 := Profile(1, "", "", "a", [14], [], [2, 3], []),
                               2 := Profile(2, "", "", "b", [11, 12], [1], [], []),
                               3 := Profile(3, "", "", "c", [13], [1], [], [])],
                       map[11 := p1, 12 := p2, 13 := p3, 14 := p4])

  lemma SampleFollowed()
    ensures FollowedRefs([2, 3], sampleDb.profiles) == [11, 12, 13]
  {
    var ps := sampleDb.profiles;
    assert [3][1..] == [];
    assert FollowedRefs([3], ps) == ps[3].posts + FollowedRefs([], ps);
    assert [2, 3][1..] == [3];
    assert FollowedRefs([2, 3], ps) == ps[2].posts + FollowedRefs([3], ps);
  }

  lemma SampleRefs()
    ensures FeedRefs(sampleDb.profiles[1], sampleDb.profiles) == [11, 12, 13, 14]
  {
    var a := sampleDb.profiles[1];
    FeedRefsOrder(a, sampleDb.profiles);
    SampleFollowed();
    assert a.following == [2, 3] && a.posts == [14];
  }

  lemma SampleLoads()
    ensures PostsOf(Resolve([11, 12, 13, 14], sampleDb.posts, 0)) == [p1, p2, p3, p4]
  {
    assert Resolve([14], sampleDb.posts, 3) == [Loaded(3, p4)];
    assert Resolve([13, 14], sampleDb.posts, 2) == [Loaded(2, p3), Loaded(3, p4)];
    assert Resolve([12, 13, 14], sampleDb.posts, 1) == [Loaded(1, p2), Loaded(2, p3), Loaded(3, p4)];
  }

  lemma SampleInserts()
    ensures Insert(p3, [p4]) == [p4, p3]
    ensures Insert(p2, [p4, p3]) == [p4, p3, p2]
    ensures Insert(p1, [p4, p3, p2]) == [p4, p3, p2, p1]
  {
    assert Seconds(p1) == 1 && Seconds(p2) == 2 && Seconds(p3) == 3 && Seconds(p4) == 4;
    assert Insert(p3, []) == [p3];
    assert Insert(p2, []) == [p2];
    assert Insert(p1, []) == [p1];
    assert [p4, p3][1..] == [p3];
    assert Insert(p2, [p3]) == [p3, p2];
    assert [p4, p3, p2][1..] == [p3, p2];
    assert [p3, p2][1..] == [p2];
    assert Insert(p1, [p2]) == [p2, p1];
    assert Insert(p1, [p3, p2]) == [p3, p2, p1];
  }

  lemma SampleSort()
    ensures SortByDate([p1, p2, p3, p4]) == [p4, p3, p2, p1]
  {
    SampleInserts();
    assert [p1, p2, p3, p4][1..] == [p2, p3, p4];
    assert [p2, p3, p4][1..] == [p3, p4];
    assert [p3, p4][1..] == [p4];
    assert SortByDate([p4]) == [p4];
    assert SortByDate([p3, p4]) == Insert(p3, [p4]);
    assert SortByDate([p2, p3, p4]) == Insert(p2, [p4, p3]);
  }

  /** The feed of A is p4, p3, p2, p1. */
  lemma FeedOrdersByDate()
    ensures Feed(sampleDb, Some(1)) == Success([p4, p3, p2, p1])
  {
    SampleRefs();
    SampleLoads();
    SampleSort();
    FeedDedupRemovesNothing(sampleDb, 1);
  }

  /** The evident intent: one entry per post id, the first loaded kept, newest first. */
  function FeedIntended(db: Db, found: Option<UserId>): (r: Result<seq<Post>>)
    requires found.Some? ==> found.value in db.profiles
    ensures r.Failure? <==> found.None?
  {
    if found.None? then Failure(ServerError)
    else
      var loaded := Resolve(FeedRefs(db.profiles[found.value], db.profiles), db.posts, 0);
      Success(SortByDate(KeepFirst(PostsOf(loaded), (p: Post) => p.id)))
  }

  /** The intended feed is newest first, names every loaded post id exactly once, and
      holds only loaded posts. */
  lemma FeedIntendedIsSound(db: Db, found: UserId)
    requires found in db.profiles
    ensures var ps := PostsOf(Resolve(FeedRefs(db.profiles[found], db.profiles), db.posts, 0));
      var r := FeedIntended(db, Some(found)).value;
      && NewestFirst(r)
      && DistinctKeys(r, (p: Post) => p.id)
      && Keys(r, (p: Post) => p.id) == Keys(ps, (p: Post) => p.id)
      && (forall x :: x in r ==> x in ps)
  {
    var ps := PostsOf(Resolve(FeedRefs(db.profiles[found], db.profiles), db.posts, 0));
    var key := (p: Post) => p.id;
    var kept := KeepFirst(ps, key);
    var r := SortByDate(kept);
    KeepFirstKeys(ps, key);
    assert forall x :: x in r <==> x in kept by {
      forall x ensures x in r <==> x in kept {
        assert x in r <==> x in multiset(r);
      }
    }
    assert Keys(r, key) == Keys(kept, key);
    SortDistinct(kept, key);
  }

  lemma {:induction false} InsertDistinct(p: Post, s: seq<Post>, key: Post -> PostId)
    requires DistinctKeys(s, key) && forall x :: x in s ==> key(x) != key(p)
    ensures DistinctKeys(Insert(p, s), key)
    decreases |s|
  {
    if |s| > 0 && Seconds(p) < Seconds(s[0]) {
      var rest := Insert(p, s[1..]);
      InsertDistinct(p, s[1..], key);
      forall x | x in rest
        ensures key(x) != key(s[0])
      {
        assert x in multiset(rest);
        if x != p {
          var k :| 0 <= k < |s[1..]| && s[1..][k] == x;
          assert s[k + 1] == x;
        }
      }
    }
  }

  /** Sorting a list without repeated ids keeps it so. */
  lemma {:induction false} SortDistinct(s: seq<Post>, key: Post -> PostId)
    requires DistinctKeys(s, key)
    ensures DistinctKeys(SortByDate(s), key)
    decreases |s|
  {
    if |s| > 0 {
      var rest := SortByDate(s[1..]);
      SortDistinct(s[1..], key);
      forall x | x in rest
        ensures key(x) != key(s[0])
      {
        assert x in multiset(s[1..]);
        var k :| 0 <= k < |s[1..]| && s[1..][k] == x;
        assert s[k + 1] == x;
      }
      InsertDistinct(s[0], rest, key);
    }
  }
}
