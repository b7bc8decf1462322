/** `GET api/profile/recommendation` (routes/api/profile.js:13-99): up to five accounts
    for the requester to follow, built from the requester's followers and from the
    accounts followed by the accounts the requester follows, topped up from the users
    collection or shuffled and cut to five. Every `Promise.all(xs.map(...))` is a
    sequential map (it keeps the input order); a lookup that resolves to `null` makes
    the next property read throw, which rejects the whole `Promise.all` and ends in the
    handler's catch with a 500. */
module Recommendation {
  import opened Outcomes
  import opened Models
  import opened JsArray

  /** One entry of the answer: `{ user, avatar, username }`. */
  datatype Suggestion = Suggestion(user: UserId, avatar: string, username: string)

  function SuggestionOf(u: User): Suggestion
  {
    Suggestion(u.id, u.avatar, u.username)
  }

  /** `x` is what `User.findById(x.user)` answers, mapped to `{ user, avatar, username }`. */
  predicate Resolved(users: seq<User>, x: Suggestion)
  {
    FindUser(users, x.user).Some? && x == SuggestionOf(FindUser(users, x.user).value)
  }

  /** `x` is built from some stored user record. */
  predicate FromRecord(users: seq<User>, x: Suggestion)
  {
    exists u :: u in users && x == SuggestionOf(u)
  }

  function UserIds(s: seq<Suggestion>): (ids: seq<UserId>)
    ensures |ids| == |s| && forall i :: 0 <= i < |s| ==> ids[i] == s[i].user
  {
    seq(|s|, i requires 0 <= i < |s| => s[i].user)
  }

  // ---------------------------------------------------------------------------
  // Lines 20-25: the "followers you don't follow back" reduce

  /** Which embedded array of the loaded profile a subdocument belongs to. */
  datatype ArrayName = FollowersArray | FollowingArray

  /** A `{ user }` subdocument of the loaded profile, with its object identity: `===`
      on two subdocuments holds only for the same array slot. */
  datatype Subdoc = Subdoc(owner: ArrayName, pos: nat, user: UserId)

  function Subdocs(owner: ArrayName, ids: seq<UserId>): (r: seq<Subdoc>)
    ensures |r| == |ids|
    ensures forall i :: 0 <= i < |ids| ==> r[i] == Subdoc(owner, i, ids[i])
  {
    seq(|ids|, i requires 0 <= i < |ids| => Subdoc(owner, i, ids[i]))
  }

  function SubdocUsers(s: seq<Subdoc>): (ids: seq<UserId>)
    ensures |ids| == |s| && forall i :: 0 <= i < |s| ==> ids[i] == s[i].user
  {
    seq(|s|, i requires 0 <= i < |s| => s[i].user)
  }

  /** `follower === cur` on two subdocuments. */
  predicate Identical(a: Subdoc, b: Subdoc)
  {
    a.owner == b.owner && a.pos == b.pos
  }

  /** `following.reduce((prev, cur) => { if (prev.find(f => f === cur)) prev.pop(cur); return prev }, prev)`:
      `pop` ignores its argument and drops the last entry. */
  function NotFollowingBack(prev: seq<Subdoc>, following: seq<Subdoc>): seq<Subdoc>
    decreases |following|
  {
    if |following| == 0 then prev
    else
      var found := exists f :: f in prev && Identical(f, following[0]);
      NotFollowingBack(if found && |prev| > 0 then prev[..|prev| - 1] else prev, following[1..])
  }

  /** No follower subdocument is identical to a following subdocument, so the reduce
      removes nothing: `notFollowingBack` is every follower, unchanged. */
  lemma {:induction false} NotFollowingBackKeepsAll(prev: seq<Subdoc>, following: seq<Subdoc>)
    requires forall f :: f in prev ==> f.owner == FollowersArray
    requires forall g :: g in following ==> g.owner == FollowingArray
    ensures NotFollowingBack(prev, following) == prev
    decreases |following|
  {
    if |following| > 0 {
      NotFollowingBackKeepsAll(prev, following[1..]);
    }
  }

  // ---------------------------------------------------------------------------
  // Lines 27-60: resolving ids to suggestions

  /** `Promise.all(ids.map(async id => { const user = await User.findById(id); return { user: id, avatar: user.avatar, username: user.username } }))`. */
  function ResolveAll(ids: seq<UserId>, users: seq<User>): (r: Result<seq<Suggestion>>)
    ensures r.Success? <==> forall id :: id in ids ==> FindUser(users, id).Some?
    ensures r.Failure? ==> r.status == ServerError
    ensures r.Success? ==> |r.value| == |ids|
    ensures r.Success? ==> forall i :: 0 <= i < |ids| ==>
      FindUser(users, ids[i]).Some? && r.value[i] == SuggestionOf(FindUser(users, ids[i]).value)
  {
    if |ids| == 0 then Success([])
    else
      match FindUser(users, ids[0])
      case None =>
        assert ids[0] in ids;
        Failure(ServerError)
      case Some(u) =>
        assert forall id :: id in ids ==> id == ids[0] || id in ids[1..];
        assert forall id :: id in ids[1..] ==> id in ids;
        match ResolveAll(ids[1..], users)
        case Failure(e) => Failure(e)
        case Success(rest) => Success([SuggestionOf(u)] + rest)
  }

  /** Every suggestion `ResolveAll` builds is its own user's record. */
  lemma ResolveAllResolved(ids: seq<UserId>, users: seq<User>)
    ensures var r := ResolveAll(ids, users);
      r.Success? ==> forall x :: x in r.value ==> Resolved(users, x)
  {
    var r := ResolveAll(ids, users);
    if r.Success? {
      forall x | x in r.value ensures Resolved(users, x) {
        var k :| 0 <= k < |r.value| && r.value[k] == x;
        assert x.user == ids[k];
      }
    }
  }

  /** The accounts followed by the accounts in `following`, flattened in `following` order
      (an account without a profile contributes nothing here; the route fails on it). */
  function SecondDegreeIds(following: seq<UserId>, profiles: map<UserId, Profile>): seq<UserId>
  {
    if |following| == 0 then []
    else (if following[0] in profiles then profiles[following[0]].following else [])
         + SecondDegreeIds(following[1..], profiles)
  }

  /** Every lookup the second stage makes succeeds. */
  predicate SecondDegreeResolves(following: seq<UserId>, profiles: map<UserId, Profile>, users: seq<User>)
  {
    forall f :: f in following ==> f in profiles && forall g :: g in profiles[f].following ==> FindUser(users, g).Some?
  }

  /** Lines 40-58: `Profile.findOne` for every followed account, then its `following` resolved. */
  function SecondDegree(following: seq<UserId>, profiles: map<UserId, Profile>, users: seq<User>): (r: Result<seq<Suggestion>>)
    ensures r.Success? <==> SecondDegreeResolves(following, profiles, users)
    ensures r.Failure? ==> r.status == ServerError
    ensures r.Success? ==> UserIds(r.value) == SecondDegreeIds(following, profiles)
  {
    if |following| == 0 then Success([])
    else
      var f := following[0];
      SecondDegreeResolvesCons(following, profiles, users);
      if f !in profiles then Failure(ServerError)
      else
        match ResolveAll(profiles[f].following, users)
        case Failure(e) => Failure(e)
        case Success(head) =>
          match SecondDegree(following[1..], profiles, users)
          case Failure(e) => Failure(e)
          case Success(rest) =>
            assert UserIds(head) == profiles[f].following;
            assert UserIds(head + rest) == UserIds(head) + UserIds(rest);
            Success(head + rest)
  }

  /** Every second-degree entry is `{ user, avatar, username }` of the user record its id
      finds (lines 46-52). */
  lemma {:induction false} SecondDegreeResolved(following: seq<UserId>, profiles: map<UserId, Profile>, users: seq<User>)
    ensures var r := SecondDegree(following, profiles, users);
      r.Success? ==> forall x :: x in r.value ==> Resolved(users, x)
    decreases |following|
  {
    var r := SecondDegree(following, profiles, users);
    if |following| > 0 && r.Success? {
      var f := following[0];
      var head := ResolveAll(profiles[f].following, users);
      var rest := SecondDegree(following[1..], profiles, users);
      ResolveAllResolved(profiles[f].following, users);
      SecondDegreeResolved(following[1..], profiles, users);
      assert r.value == head.value + rest.value;
    }
  }

  /** The second stage resolves iff its first account does and the rest does. */
  lemma SecondDegreeResolvesCons(following: seq<UserId>, profiles: map<UserId, Profile>, users: seq<User>)
    requires |following| > 0
    ensures SecondDegreeResolves(following, profiles, users) <==>
      && following[0] in profiles
      && (forall g :: g in profiles[following[0]].following ==> FindUser(users, g).Some?)
      && SecondDegreeResolves(following[1..], profiles, users)
  {
    assert forall g :: g in following ==> g == following[0] || g in following[1..];
    assert forall g :: g in following[1..] ==> g in following;
  }

  // ---------------------------------------------------------------------------
  // Lines 62-66: the candidate list

  /** The filter at lines 63-66 keeps an id iff it is not the requester and not followed. */
  predicate Eligible(me: UserId, following: seq<UserId>, id: UserId)
  {
    id != me && id !in following
  }

  /** Every lookup the route makes succeeds: the requester's profile, the user record of
      every follower, and the profile of every followed account and the user records of
      the accounts it follows. */
  predicate LookupsResolve(me: UserId, profiles: map<UserId, Profile>, users: seq<User>)
  {
    && me in profiles
    && (forall id :: id in profiles[me].followers ==> FindUser(users, id).Some?)
    && SecondDegreeResolves(profiles[me].following, profiles, users)
  }

  /** Lines 17-66: the followers (all of them, see `NotFollowingBackKeepsAll`), then the
      second-degree accounts, minus the requester and everyone already followed. */
  function Candidates(me: UserId, profiles: map<UserId, Profile>, users: seq<User>): (r: Result<seq<Suggestion>>)
    ensures r.Success? <==> LookupsResolve(me, profiles, users)
    ensures r.Failure? ==> r.status == ServerError
    ensures r.Success? ==> forall x :: x in r.value ==> Eligible(me, profiles[me].following, x.user)
    ensures r.Success? ==> forall x :: x in r.value ==> Resolved(users, x)
  {
    if me !in profiles then Failure(ServerError)
    else
      var profile := profiles[me];
      var followers := Subdocs(FollowersArray, profile.followers);
      NotFollowingBackKeepsAll(followers, Subdocs(FollowingArray, profile.following));
      var kept := NotFollowingBack(followers, Subdocs(FollowingArray, profile.following));
      assert SubdocUsers(kept) == profile.followers;
      var first :- ResolveAll(SubdocUsers(kept), users);
      var second :- SecondDegree(profile.following, profiles, users);
      ResolveAllResolved(SubdocUsers(kept), users);
      SecondDegreeResolved(profile.following, profiles, users);
      Success(Filter(first + second, (x: Suggestion) => Eligible(me, profile.following, x.user)))
  }

  lemma UserIdsCons(x: Suggestion, rest: seq<Suggestion>)
    ensures UserIds([x] + rest) == [x.user] + UserIds(rest)
  {
    assert ([x] + rest)[1..] == rest;
  }

  lemma UserIdsSplit(xs: seq<Suggestion>)
    requires |xs| > 0
    ensures UserIds(xs) == [xs[0].user] + UserIds(xs[1..])
  {
    assert xs == [xs[0]] + xs[1..];
    UserIdsCons(xs[0], xs[1..]);
  }

  lemma {:induction false} UserIdsFilter(xs: seq<Suggestion>, me: UserId, following: seq<UserId>)
    ensures UserIds(Filter(xs, (x: Suggestion) => Eligible(me, following, x.user)))
         == Filter(UserIds(xs), id => Eligible(me, following, id))
  {
    if |xs| > 0 {
      UserIdsFilter(xs[1..], me, following);
      UserIdsSplit(xs);
      if Eligible(me, following, xs[0].user) {
        UserIdsCons(xs[0], Filter(xs[1..], (x: Suggestion) => Eligible(me, following, x.user)));
      }
    }
  }

  /** The candidate ids, in order: the followers that are neither the requester nor
      followed, then the second-degree accounts that are neither. */
  lemma CandidateIds(me: UserId, profiles: map<UserId, Profile>, users: seq<User>)
    requires LookupsResolve(me, profiles, users)
    ensures var p := profiles[me];
      UserIds(Candidates(me, profiles, users).value)
        == Filter(p.followers + SecondDegreeIds(p.following, profiles), id => Eligible(me, p.following, id))
  {
    var p := profiles[me];
    var followers := Subdocs(FollowersArray, p.followers);
    NotFollowingBackKeepsAll(followers, Subdocs(FollowingArray, p.following));
    var first := ResolveAll(p.followers, users).value;
    var second := SecondDegree(p.following, profiles, users).value;
    assert SubdocUsers(NotFollowingBack(followers, Subdocs(FollowingArray, p.following))) == p.followers;
    assert UserIds(first) == p.followers;
    UserIdsFilter(first + second, me, p.following);
    assert UserIds(first + second) == UserIds(first) + UserIds(second);
  }

  // ---------------------------------------------------------------------------
  // Lines 68-82: top up or shuffle and cut

  function Min(a: int, b: int): int { if a <= b then a else b }

  /** The users `User.find({ _id: { $ne: owner, $nin: exclude } })` matches, in
      collection order. */
  function Pool(users: seq<User>, owner: UserId, exclude: seq<UserId>): (r: seq<User>)
    ensures forall u :: u in r <==> u in users && u.id != owner && u.id !in exclude
    ensures IsSubseq(r, users)
  {
    var keep := (u: User) => u.id != owner && u.id !in exclude;
    FilterIsSubseq(users, keep);
    Filter(users, keep)
  }

  /** `User.find({ _id: { $ne: owner, $nin: exclude } }, null, { limit })` mapped to
      `{ user, username, avatar }`: the first `limit` users, in collection order, that
      are outside the exclusion. */
  function FillFromPool(users: seq<User>, owner: UserId, exclude: seq<UserId>, limit: nat): (r: seq<Suggestion>)
    ensures var found := Pool(users, owner, exclude);
      && |r| == Min(limit, |found|)
      && forall i :: 0 <= i < |r| ==> r[i] == SuggestionOf(found[i])
    ensures forall x :: x in r ==> x.user != owner && x.user !in exclude
  {
    var found := Pool(users, owner, exclude);
    var taken := if |found| <= limit then found else found[..limit];
    var r := seq(|taken|, i requires 0 <= i < |taken| => SuggestionOf(taken[i]));
    assert forall x :: x in r ==> x.user != owner && x.user !in exclude by {
      forall x | x in r ensures x.user != owner && x.user !in exclude {
        var i :| 0 <= i < |r| && r[i] == x;
        assert taken[i] in found;
      }
    }
    r
  }

  /** `Math.random`-driven sorts are some permutation of their input. */
  ghost predicate IsShuffle(shuffle: seq<Suggestion> -> seq<Suggestion>)
  {
    forall s :: multiset(shuffle(s)) == multiset(s)
  }

  /** Lines 13-82: the list that reaches the final reducer at line 84. */
  function Shortlist(me: UserId, profiles: map<UserId, Profile>, users: seq<User>,
                     shuffle: seq<Suggestion> -> seq<Suggestion>): (r: Result<seq<Suggestion>>)
    requires IsShuffle(shuffle)
    ensures r.Success? <==> LookupsResolve(me, profiles, users)
    ensures r.Failure? ==> r.status == ServerError
    ensures r.Success? ==> |r.value| <= 5
  {
    var cands :- Candidates(me, profiles, users);
    if |cands| < 5 then
      Success(cands + FillFromPool(users, profiles[me].user, UserIds(cands) + profiles[me].following, 5 - |cands|))
    else
      var shuffled := shuffle(cands);
      assert |multiset(shuffled)| == |shuffled|;
      Success(shuffled[..5])
  }

  /** With fewer than five candidates the route keeps them all and asks the collection
      for exactly the missing number of users that are not the requester, not a
      candidate and not followed; it gets as many as there are, up to that number, as
      the first such users of the collection in collection order. */
  lemma ShortlistTopsUp(me: UserId, profiles: map<UserId, Profile>, users: seq<User>,
                        shuffle: seq<Suggestion> -> seq<Suggestion>)
    requires IsShuffle(shuffle) && LookupsResolve(me, profiles, users)
    requires |Candidates(me, profiles, users).value| < 5
    ensures var c := Candidates(me, profiles, users).value;
      var r := Shortlist(me, profiles, users, shuffle).value;
      var exclude := UserIds(c) + profiles[me].following;
      var found := Pool(users, profiles[me].user, exclude);
      && r[..|c|] == c
      && |r| - |c| == Min(5 - |c|, |found|)
      && (forall i :: 0 <= i < |r| - |c| ==> r[|c| + i] == SuggestionOf(found[i]))
      && forall x :: x in r[|c|..] ==> x.user != profiles[me].user && x.user !in exclude
  {
    var c := Candidates(me, profiles, users).value;
    var pool := FillFromPool(users, profiles[me].user, UserIds(c) + profiles[me].following, 5 - |c|);
    assert (c + pool)[..|c|] == c && (c + pool)[|c|..] == pool;
  }

  /** With five or more candidates the route answers the first five of a permutation of them. */
  lemma ShortlistShuffles(me: UserId, profiles: map<UserId, Profile>, users: seq<User>,
                          shuffle: seq<Suggestion> -> seq<Suggestion>)
    requires IsShuffle(shuffle) && LookupsResolve(me, profiles, users)
    requires |Candidates(me, profiles, users).value| >= 5
    ensures var c := Candidates(me, profiles, users).value;
      var r := Shortlist(me, profiles, users, shuffle).value;
      |r| == 5 && exists p: seq<Suggestion> :: multiset(p) == multiset(c) && r == p[..5]
  {
    var c := Candidates(me, profiles, users).value;
    var shuffled := shuffle(c);
    assert multiset(shuffled) == multiset(c);
    assert |shuffled| == |multiset(shuffled)| == |multiset(c)| == |c|;
    assert Shortlist(me, profiles, users, shuffle) == Success(shuffled[..5]);
  }

  /** Nothing on the shortlist is the requester or an account the requester already follows. */
  lemma {:induction false} ShortlistExcludes(me: UserId, profiles: map<UserId, Profile>, users: seq<User>,
                                             shuffle: seq<Suggestion> -> seq<Suggestion>)
    requires IsShuffle(shuffle) && ProfilesKeyed(profiles)
    ensures var r := Shortlist(me, profiles, users, shuffle);
      r.Success? ==> forall x :: x in r.value ==> Eligible(me, profiles[me].following, x.user)
  {
    var r := Shortlist(me, profiles, users, shuffle);
    if r.Success? {
      var c := Candidates(me, profiles, users).value;
      if |c| < 5 {
        ShortlistTopsUp(me, profiles, users, shuffle);
      } else {
        ShortlistShuffles(me, profiles, users, shuffle);
      }
      forall x | x in r.value ensures Eligible(me, profiles[me].following, x.user) {
        if |c| < 5 {
          var k :| 0 <= k < |r.value| && r.value[k] == x;
          if k < |c| {
            assert x in c;
          } else {
            assert x in r.value[|c|..];
          }
        } else {
          var p: seq<Suggestion> :| multiset(p) == multiset(c) && r.value == p[..5];
          assert x in multiset(p);
        }
      }
    }
  }

  /** Every top-up entry is built from a stored user record. */
  lemma FillFromRecords(users: seq<User>, owner: UserId, exclude: seq<UserId>, limit: nat)
    ensures forall x :: x in FillFromPool(users, owner, exclude, limit) ==> FromRecord(users, x)
  {
    var r := FillFromPool(users, owner, exclude, limit);
    var found := Pool(users, owner, exclude);
    forall x | x in r ensures FromRecord(users, x) {
      var k :| 0 <= k < |r| && r[k] == x;
      assert found[k] in found;
    }
  }

  /** Every candidate is built from a stored user record. */
  lemma CandidatesFromRecords(me: UserId, profiles: map<UserId, Profile>, users: seq<User>)
    ensures var c := Candidates(me, profiles, users);
      c.Success? ==> forall x :: x in c.value ==> FromRecord(users, x)
  {
    var c := Candidates(me, profiles, users);
    if c.Success? {
      forall x | x in c.value ensures FromRecord(users, x) {
        assert Resolved(users, x);
        assert FindUser(users, x.user).value in users;
      }
    }
  }

  /** Every shortlisted entry carries the avatar and username of a stored user record:
      the candidates are looked up by id, the top-up comes from the collection itself. */
  lemma ShortlistFromRecords(me: UserId, profiles: map<UserId, Profile>, users: seq<User>,
                             shuffle: seq<Suggestion> -> seq<Suggestion>)
    requires IsShuffle(shuffle)
    ensures var r := Shortlist(me, profiles, users, shuffle);
      r.Success? ==> forall x :: x in r.value ==> FromRecord(users, x)
  {
    var r := Shortlist(me, profiles, users, shuffle);
    if r.Success? {
      var c := Candidates(me, profiles, users).value;
      CandidatesFromRecords(me, profiles, users);
      if |c| < 5 {
        var exclude := UserIds(c) + profiles[me].following;
        FillFromRecords(users, profiles[me].user, exclude, 5 - |c|);
        assert r.value == c + FillFromPool(users, profiles[me].user, exclude, 5 - |c|);
      } else {
        var shuffled := shuffle(c);
        assert r.value == shuffled[..5];
        forall x | x in r.value ensures FromRecord(users, x) {
          assert x in multiset(shuffled);
        }
      }
    }
  }

  // ---------------------------------------------------------------------------
  // Lines 84-92: the final reducer

  /** As written, the reducer calls `prev.find` on its CURRENT element, a plain object
      with no `find`: the first call throws, and the catch answers 500. Only an empty list
      passes (reduce then returns the initial `[]` without calling the reducer). */
  function FinalReduceAsWritten(list: seq<Suggestion>): (r: Result<seq<Suggestion>>)
    ensures r.Success? <==> list == []
    ensures r.Success? ==> r.value == []
    ensures r.Failure? ==> r.status == ServerError
  {
    if |list| == 0 then Success([]) else Failure(ServerError)
  }

  /** The route as written. */
  function RecommendationAsWritten(me: UserId, profiles: map<UserId, Profile>, users: seq<User>,
                                   shuffle: seq<Suggestion> -> seq<Suggestion>): (r: Result<seq<Suggestion>>)
    requires IsShuffle(shuffle)
  {
    var list :- Shortlist(me, profiles, users, shuffle);
    FinalReduceAsWritten(list)
  }

  /** The route as written never answers a suggestion: it answers `[]` when there is
      nothing to suggest and 500 otherwise. A requester who follows no one and has no
      followers, in a collection with another user, gets a 500. */
  lemma RecommendationAsWrittenNeverSuggests(me: UserId, profiles: map<UserId, Profile>, users: seq<User>,
                                             shuffle: seq<Suggestion> -> seq<Suggestion>)
    requires IsShuffle(shuffle)
    ensures var r := RecommendationAsWritten(me, profiles, users, shuffle);
      (r.Success? ==> r.value == []) && (r.Failure? ==> r.status == ServerError)
    ensures me in profiles && profiles[me].followers == [] && profiles[me].following == []
      && (exists u :: u in users && u.id != profiles[me].user)
      ==> RecommendationAsWritten(me, profiles, users, shuffle) == Failure(ServerError)
  {
    if me in profiles && profiles[me].followers == [] && profiles[me].following == []
       && (exists u :: u in users && u.id != profiles[me].user) {
      var u :| u in users && u.id != profiles[me].user;
      assert LookupsResolve(me, profiles, users);
      var c := Candidates(me, profiles, users).value;
      CandidateIds(me, profiles, users);
      assert UserIds(c) == [];
      assert u in Pool(users, profiles[me].user, UserIds(c) + profiles[me].following);
    }
  }

  /** The evident intent of lines 84-92: drop later entries for a user already listed. */
  function DedupByUser(list: seq<Suggestion>): seq<Suggestion>
  {
    KeepFirst(list, (x: Suggestion) => x.user)
  }

  /** The route with the reducer doing what it evidently means to. */
  function Recommend(me: UserId, profiles: map<UserId, Profile>, users: seq<User>,
                     shuffle: seq<Suggestion> -> seq<Suggestion>): (r: Result<seq<Suggestion>>)
    requires IsShuffle(shuffle)
  {
    var list :- Shortlist(me, profiles, users, shuffle);
    Success(DedupByUser(list))
  }

  /** The intended answer: at most five distinct accounts, none of them the requester or
      already followed, each with its user record's avatar and username. */
  lemma RecommendIsSound(me: UserId, profiles: map<UserId, Profile>, users: seq<User>,
                         shuffle: seq<Suggestion> -> seq<Suggestion>)
    requires IsShuffle(shuffle) && ProfilesKeyed(profiles)
    ensures var r := Recommend(me, profiles, users, shuffle);
      r.Success? ==>
        && |r.value| <= 5
        && (forall i, j :: 0 <= i < j < |r.value| ==> r.value[i].user != r.value[j].user)
        && (forall x :: x in r.value ==> Eligible(me, profiles[me].following, x.user))
        && (forall x :: x in r.value ==> FromRecord(users, x))
  {
    var r := Recommend(me, profiles, users, shuffle);
    if r.Success? {
      var list := Shortlist(me, profiles, users, shuffle).value;
      ShortlistExcludes(me, profiles, users, shuffle);
      ShortlistFromRecords(me, profiles, users, shuffle);
      var d := DedupByUser(list);
      assert r.value == d;
      assert DistinctKeys(d, (x: Suggestion) => x.user);
      forall x | x in d ensures Eligible(me, profiles[me].following, x.user) && FromRecord(users, x) {
        assert x in list;
      }
    }
  }
}
