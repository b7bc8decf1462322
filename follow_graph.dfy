/** The follow-graph handlers of routes/api/profile.js: `following/add`, `following/remove`
    and `follower/remove`. Each loads the requester's profile and the other account's
    profile, changes one embedded array on each in place (`unshift` / `splice`) and saves
    both. `save()` writes the arrays a document changed, so when both loads are the same
    record both changes land on it. */
module FollowGraph {
  import opened Outcomes
  import opened Models
  import opened JsArray

  /** Every follow edge is recorded on both sides, as many times on one side as on the other. */
  ghost predicate Mirrored(profiles: map<UserId, Profile>)
  {
    forall a, b :: a in profiles && b in profiles ==>
      multiset(profiles[a].following)[b] == multiset(profiles[b].followers)[a]
  }

  /** `b` is `a` with at most its two follow arrays changed. */
  predicate SameBesidesEdges(a: Profile, b: Profile)
  {
    b == a.(followers := b.followers, following := b.following)
  }

  /** Two saves: `me`'s `following` array becomes `following`, then `other`'s `followers`
      array becomes `followers`. */
  function SaveBoth(profiles: map<UserId, Profile>, me: UserId, following: seq<UserId>,
                    other: UserId, followers: seq<UserId>): map<UserId, Profile>
    requires me in profiles && other in profiles
  {
    var ps := profiles[me := profiles[me].(following := following)];
    ps[other := ps[other].(followers := followers)]
  }

  /** The two saves touch only the two arrays they write. */
  lemma SaveBothEffect(profiles: map<UserId, Profile>, me: UserId, following: seq<UserId>,
                       other: UserId, followers: seq<UserId>)
    requires me in profiles && other in profiles
    ensures var qs := SaveBoth(profiles, me, following, other, followers);
      && qs.Keys == profiles.Keys
      && qs[me].following == following && qs[other].followers == followers
      && (forall u :: u in profiles ==> SameBesidesEdges(profiles[u], qs[u]))
      && (forall u :: u in profiles && u != me ==> qs[u].following == profiles[u].following)
      && (forall u :: u in profiles && u != other ==> qs[u].followers == profiles[u].followers)
  {
  }

  /** The same for the saves in the other order, as `follower/remove` does them. */
  lemma SaveBothReversedEffect(profiles: map<UserId, Profile>, me: UserId, followers: seq<UserId>,
                               other: UserId, following: seq<UserId>)
    requires me in profiles && other in profiles
    ensures var qs := SaveBothReversed(profiles, me, followers, other, following);
      && qs.Keys == profiles.Keys
      && qs[me].followers == followers && qs[other].following == following
      && (forall u :: u in profiles ==> SameBesidesEdges(profiles[u], qs[u]))
      && (forall u :: u in profiles && u != other ==> qs[u].following == profiles[u].following)
      && (forall u :: u in profiles && u != me ==> qs[u].followers == profiles[u].followers)
  {
  }

  /** Adding one `a0 -> b0` edge on both sides keeps a mirrored graph mirrored. */
  lemma MirroredAfterAdd(ps: map<UserId, Profile>, qs: map<UserId, Profile>, a0: UserId, b0: UserId)
    requires Mirrored(ps) && qs.Keys == ps.Keys
    requires forall a :: a in ps && a != a0 ==> qs[a].following == ps[a].following
    requires forall b :: b in ps && b != b0 ==> qs[b].followers == ps[b].followers
    requires a0 in ps ==> multiset(qs[a0].following) == multiset(ps[a0].following) + multiset{b0}
    requires b0 in ps ==> multiset(qs[b0].followers) == multiset(ps[b0].followers) + multiset{a0}
    ensures Mirrored(qs)
  {
    forall a, b | a in qs && b in qs
      ensures multiset(qs[a].following)[b] == multiset(qs[b].followers)[a]
    {
      assert multiset(ps[a].following)[b] == multiset(ps[b].followers)[a];
      if a != a0 {
        assert qs[a].following == ps[a].following;
      } else {
        assert multiset(qs[a].following)[b] == multiset(ps[a].following)[b] + if b == b0 then 1 else 0;
      }
      if b != b0 {
        assert qs[b].followers == ps[b].followers;
      } else {
        assert multiset(qs[b].followers)[a] == multiset(ps[b].followers)[a] + if a == a0 then 1 else 0;
      }
    }
  }

  /** Removing one `a0 -> b0` edge on both sides (when there is one) keeps a mirrored graph mirrored. */
  lemma MirroredAfterRemove(ps: map<UserId, Profile>, qs: map<UserId, Profile>, a0: UserId, b0: UserId)
    requires Mirrored(ps) && qs.Keys == ps.Keys
    requires forall a :: a in ps && a != a0 ==> qs[a].following == ps[a].following
    requires forall b :: b in ps && b != b0 ==> qs[b].followers == ps[b].followers
    requires a0 in ps ==> multiset(qs[a0].following) == multiset(ps[a0].following) - multiset{b0}
    requires b0 in ps ==> multiset(qs[b0].followers) == multiset(ps[b0].followers) - multiset{a0}
    ensures Mirrored(qs)
  {
    forall a, b | a in qs && b in qs
      ensures multiset(qs[a].following)[b] == multiset(qs[b].followers)[a]
    {
      assert multiset(ps[a].following)[b] == multiset(ps[b].followers)[a];
      if a != a0 {
        assert qs[a].following == ps[a].following;
      } else {
        CountAfterRemove(multiset(ps[a].following), multiset(qs[a].following), b0, b);
      }
      if b != b0 {
        assert qs[b].followers == ps[b].followers;
      } else {
        CountAfterRemove(multiset(ps[b].followers), multiset(qs[b].followers), a0, a);
      }
    }
  }

  // ---------------------------------------------------------------------------
  // POST api/profile/following/add (lines 299-317)

  function FollowingAdd(db: Db, me: UserId, target: UserId): Outcome
  {
    var ps := db.profiles;
    if me !in ps || target !in ps then Outcome(ServerError, db)
    else Outcome(Ok, db.(profiles := SaveBoth(ps, me, [target] + ps[me].following, target, [me] + ps[target].followers)))
  }

  /** A missing profile is a 500 with nothing saved; otherwise the target is prepended to
      the requester's `following` and the requester to the target's `followers`, with no
      duplicate or self-follow check, and nothing else changes. */
  lemma FollowingAddEffect(db: Db, me: UserId, target: UserId)
    ensures var r := FollowingAdd(db, me, target);
      && (r.status == Ok <==> me in db.profiles && target in db.profiles)
      && (r.status != Ok ==> r.status == ServerError && r.after == db)
      && (r.status == Ok ==>
        && r.after.users == db.users && r.after.posts == db.posts
        && r.after.profiles.Keys == db.profiles.Keys
        && r.after.profiles[me].following == [target] + db.profiles[me].following
        && r.after.profiles[target].followers == [me] + db.profiles[target].followers
        && (forall u :: u in db.profiles ==> SameBesidesEdges(db.profiles[u], r.after.profiles[u]))
        && (forall u :: u in db.profiles && u != me ==> r.after.profiles[u].following == db.profiles[u].following)
        && (forall u :: u in db.profiles && u != target ==> r.after.profiles[u].followers == db.profiles[u].followers))
  {
  }

  /** Following keeps every edge mirrored. */
  lemma FollowingAddKeepsMirrored(db: Db, me: UserId, target: UserId)
    requires Mirrored(db.profiles)
    ensures Mirrored(FollowingAdd(db, me, target).after.profiles)
  {
    var ps := db.profiles;
    if me in ps && target in ps {
      var following := [target] + ps[me].following;
      var followers := [me] + ps[target].followers;
      var qs := SaveBoth(ps, me, following, target, followers);
      assert FollowingAdd(db, me, target).after.profiles == qs;
      SaveBothEffect(ps, me, following, target, followers);
      assert multiset(following) == multiset(ps[me].following) + multiset{target};
      assert multiset(followers) == multiset(ps[target].followers) + multiset{me};
      MirroredAfterAdd(ps, qs, me, target);
    }
  }

  method PostFollowingAdd(store: Store, me: UserId, target: UserId) returns (status: Status)
    modifies store
    ensures Outcome(status, store.State()) == FollowingAdd(old(store.State()), me, target)
  {
    if me !in store.profiles || target !in store.profiles {
      return ServerError;
    }
    var profile := store.profiles[me];
    var followingProfile := store.profiles[target];
    profile := profile.(following := [target] + profile.following);
    followingProfile := followingProfile.(followers := [me] + followingProfile.followers);
    store.profiles := store.profiles[me := store.profiles[me].(following := profile.following)];
    store.profiles := store.profiles[target := store.profiles[target].(followers := followingProfile.followers)];
    return Ok;
  }

  // ---------------------------------------------------------------------------
  // POST api/profile/following/remove (lines 322-355)

  function FollowingRemove(db: Db, me: UserId, target: UserId): Outcome
  {
    var ps := db.profiles;
    if me !in ps || target !in ps then Outcome(ServerError, db)
    else
      var removeIndex := IndexOf(ps[me].following, target);
      var followerIndex := IndexOf(ps[target].followers, me);
      if removeIndex == -1 || followerIndex == -1 then Outcome(NotFound, db)
      else Outcome(Ok, db.(profiles := SaveBoth(ps, me, Splice1(ps[me].following, removeIndex),
                                                target, Splice1(ps[target].followers, followerIndex))))
  }

  /** A missing profile is a 500 and a missing entry on either side a 404, both with no
      change; otherwise exactly the first `target` entry of the requester's `following`
      and the first `me` entry of the target's `followers` are removed, and nothing else
      changes. */
  lemma FollowingRemoveEffect(db: Db, me: UserId, target: UserId)
    ensures var r := FollowingRemove(db, me, target);
      && (r.status == ServerError <==> me !in db.profiles || target !in db.profiles)
      && (r.status != Ok ==> r.after == db)
      && (me in db.profiles && target in db.profiles ==>
        var p, q := db.profiles[me], db.profiles[target];
        && (r.status == NotFound <==> target !in p.following || me !in q.followers)
        && (r.status != Ok ==> r.status == NotFound)
        && (r.status == Ok ==>
        && var i, j := IndexOf(p.following, target), IndexOf(q.followers, me);
        && r.after.users == db.users && r.after.posts == db.posts
        && r.after.profiles.Keys == db.profiles.Keys
        && r.after.profiles[me].following == p.following[..i] + p.following[i + 1..]
        && r.after.profiles[target].followers == q.followers[..j] + q.followers[j + 1..]
        && (forall u :: u in db.profiles ==> SameBesidesEdges(db.profiles[u], r.after.profiles[u]))
        && (forall u :: u in db.profiles && u != me ==> r.after.profiles[u].following == db.profiles[u].following)
        && (forall u :: u in db.profiles && u != target ==> r.after.profiles[u].followers == db.profiles[u].followers)))
  {
    if me !in db.profiles || target !in db.profiles {
      return;
    }
    var p, q := db.profiles[me], db.profiles[target];
    if target in p.following && me in q.followers {
      var i, j := IndexOf(p.following, target), IndexOf(q.followers, me);
      SpliceIndexOf(p.following, target);
      SpliceIndexOf(q.followers, me);
      SaveBothEffect(db.profiles, me, Splice1(p.following, i), target, Splice1(q.followers, j));
    }
  }

  /** Unfollowing keeps every edge mirrored: the two counts of the edge drop together. */
  lemma FollowingRemoveKeepsMirrored(db: Db, me: UserId, target: UserId)
    requires Mirrored(db.profiles)
    ensures Mirrored(FollowingRemove(db, me, target).after.profiles)
  {
    var r := FollowingRemove(db, me, target);
    if r.status == Ok {
      FollowingRemoveEffect(db, me, target);
      SpliceIndexOf(db.profiles[me].following, target);
      SpliceIndexOf(db.profiles[target].followers, me);
      MirroredAfterRemove(db.profiles, r.after.profiles, me, target);
    }
  }

  method PostFollowingRemove(store: Store, me: UserId, target: UserId) returns (status: Status)
    modifies store
    ensures Outcome(status, store.State()) == FollowingRemove(old(store.State()), me, target)
  {
    if me !in store.profiles || target !in store.profiles {
      return ServerError;
    }
    var profile := store.profiles[me];
    var followingProfile := store.profiles[target];
    var removeIndex := IndexOf(profile.following, target);
    var followerIndex := IndexOf(followingProfile.followers, me);
    if removeIndex == -1 {
      return NotFound;
    }
    if followerIndex == -1 {
      return NotFound;
    }
    profile := profile.(following := Splice1(profile.following, removeIndex));
    followingProfile := followingProfile.(followers := Splice1(followingProfile.followers, followerIndex));
    store.profiles := store.profiles[me := store.profiles[me].(following := profile.following)];
    store.profiles := store.profiles[target := store.profiles[target].(followers := followingProfile.followers)];
    return Ok;
  }

  // ---------------------------------------------------------------------------
  // POST api/profile/follower/remove (lines 261-294)

  /** As written: the guard at line 276 repeats `removeIndex === -1`, so a follower whose
      `following` lacks the requester reaches `splice(-1, 1)`, which drops that list's
      last entry. */
  function FollowerRemove(db: Db, me: UserId, follower: UserId): Outcome
  {
    var ps := db.profiles;
    if me !in ps || follower !in ps then Outcome(ServerError, db)
    else
      var removeIndex := IndexOf(ps[me].followers, follower);
      var followerIndex := IndexOf(ps[follower].following, me);
      if removeIndex == -1 then Outcome(NotFound, db)
      else Outcome(Ok, db.(profiles := SaveBothReversed(ps, me, Splice1(ps[me].followers, removeIndex),
                                                        follower, Splice1(ps[follower].following, followerIndex))))
  }

  /** Two saves: `me`'s `followers` array becomes `followers`, then `other`'s `following`
      array becomes `following`. */
  function SaveBothReversed(profiles: map<UserId, Profile>, me: UserId, followers: seq<UserId>,
                            other: UserId, following: seq<UserId>): map<UserId, Profile>
    requires me in profiles && other in profiles
  {
    var ps := profiles[me := profiles[me].(followers := followers)];
    ps[other := ps[other].(following := following)]
  }

  /** The evident intent: the second guard tests `followerIndex`. */
  function FollowerRemoveIntended(db: Db, me: UserId, follower: UserId): Outcome
  {
    var ps := db.profiles;
    if me !in ps || follower !in ps then Outcome(ServerError, db)
    else
      var removeIndex := IndexOf(ps[me].followers, follower);
      var followerIndex := IndexOf(ps[follower].following, me);
      if removeIndex == -1 || followerIndex == -1 then Outcome(NotFound, db)
      else Outcome(Ok, db.(profiles := SaveBothReversed(ps, me, Splice1(ps[me].followers, removeIndex),
                                                        follower, Splice1(ps[follower].following, followerIndex))))
  }

  /** As written, removing a follower whose `following` does not list the requester (a
      one-sided edge) answers 200 and drops the last account that follower follows. */
  lemma FollowerRemoveDropsUnrelatedEdge(db: Db, me: UserId, follower: UserId)
    requires me in db.profiles && follower in db.profiles && me != follower
    requires follower in db.profiles[me].followers
    requires me !in db.profiles[follower].following && |db.profiles[follower].following| > 0
    ensures var r := FollowerRemove(db, me, follower);
      var f := db.profiles[follower].following;
      r.status == Ok && r.after.profiles[follower].following == f[..|f| - 1]
      && f[|f| - 1] != me
  {
  }

  /** On a mirrored graph the bug cannot show: both versions agree. */
  lemma FollowerRemoveAgreesWhenMirrored(db: Db, me: UserId, follower: UserId)
    requires Mirrored(db.profiles)
    ensures FollowerRemove(db, me, follower) == FollowerRemoveIntended(db, me, follower)
  {
    if me in db.profiles && follower in db.profiles && follower in db.profiles[me].followers {
      assert multiset(db.profiles[me].followers)[follower] > 0;
      assert multiset(db.profiles[follower].following)[me] > 0;
    }
  }

  /** The intended version answers 500 when a profile is missing and 404 unless each side
      lists the other, both with no change; otherwise it removes exactly the first
      `follower` entry of the requester's `followers` and the first `me` entry of the
      follower's `following`, keeping the order of the rest, and nothing else. */
  lemma FollowerRemoveIntendedEffect(db: Db, me: UserId, follower: UserId)
    ensures var r := FollowerRemoveIntended(db, me, follower);
      && (r.status == ServerError <==> me !in db.profiles || follower !in db.profiles)
      && (r.status != Ok ==> r.after == db)
      && (me in db.profiles && follower in db.profiles ==>
        var p, q := db.profiles[me], db.profiles[follower];
        && (r.status == NotFound <==> follower !in p.followers || me !in q.following)
        && (r.status != Ok ==> r.status == NotFound)
        && (r.status == Ok ==>
        && var i, j := IndexOf(p.followers, follower), IndexOf(q.following, me);
        && r.after.users == db.users && r.after.posts == db.posts
        && r.after.profiles.Keys == db.profiles.Keys
        && r.after.profiles[me].followers == p.followers[..i] + p.followers[i + 1..]
        && r.after.profiles[follower].following == q.following[..j] + q.following[j + 1..]
        && multiset(r.after.profiles[me].followers) == multiset(p.followers) - multiset{follower}
        && multiset(r.after.profiles[follower].following) == multiset(q.following) - multiset{me}
        && (forall u :: u in db.profiles ==> SameBesidesEdges(db.profiles[u], r.after.profiles[u]))
        && (forall u :: u in db.profiles && u != follower ==> r.after.profiles[u].following == db.profiles[u].following)
        && (forall u :: u in db.profiles && u != me ==> r.after.profiles[u].followers == db.profiles[u].followers)))
  {
    if me !in db.profiles || follower !in db.profiles {
      return;
    }
    var p, q := db.profiles[me], db.profiles[follower];
    if follower in p.followers && me in q.following {
      var i, j := IndexOf(p.followers, follower), IndexOf(q.following, me);
      SpliceIndexOf(p.followers, follower);
      SpliceIndexOf(q.following, me);
      SaveBothReversedEffect(db.profiles, me, Splice1(p.followers, i), follower, Splice1(q.following, j));
    }
  }

  /** The intended version keeps every edge mirrored. */
  lemma FollowerRemoveIntendedKeepsMirrored(db: Db, me: UserId, follower: UserId)
    requires Mirrored(db.profiles)
    ensures Mirrored(FollowerRemoveIntended(db, me, follower).after.profiles)
  {
    var r := FollowerRemoveIntended(db, me, follower);
    if r.status == Ok {
      FollowerRemoveIntendedEffect(db, me, follower);
      MirroredAfterRemove(db.profiles, r.after.profiles, follower, me);
    }
  }

  method PostFollowerRemove(store: Store, me: UserId, follower: UserId) returns (status: Status)
    modifies store
    ensures Outcome(status, store.State()) == FollowerRemove(old(store.State()), me, follower)
  {
    if me !in store.profiles || follower !in store.profiles {
      return ServerError;
    }
    var profile := store.profiles[me];
    var followerProfile := store.profiles[follower];
    var removeIndex := IndexOf(profile.followers, follower);
    var followerIndex := IndexOf(followerProfile.following, me);
    if removeIndex == -1 {
      return NotFound;
    }
    if removeIndex == -1 {
      return NotFound;
    }
    profile := profile.(followers := Splice1(profile.followers, removeIndex));
    followerProfile := followerProfile.(following := Splice1(followerProfile.following, followerIndex));
    store.profiles := store.profiles[me := store.profiles[me].(followers := profile.followers)];
    store.profiles := store.profiles[follower := store.profiles[follower].(following := followerProfile.following)];
    return Ok;
  }
}
