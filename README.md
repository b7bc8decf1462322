# Social backend route handlers — a Dafny model

This project models the request handlers of a small Express/Mongoose social network:
users register and search for each other, follow and unfollow, publish posts, like, save and
comment on them, and read a feed of the posts of the people they follow together with a list
of suggested accounts.

The database is one value, `Models.Db`: the `users` collection as a sequence (its natural order
matters to `User.find()`), the profiles keyed by their owner's id and the posts keyed by their
id. A `Models.Store` object holds that state in fields. Each handler that writes is a method on
the store (`modifies store`) whose postcondition ties the new state and the HTTP status to a pure
function of the old state. The properties the routes promise are lemmas about those functions:
what each operation changes and what it leaves alone, the invariants it keeps (followers mirror
following, a post's `saved` list mirrors its savers' profiles, every post is listed by its
owner), and round trips (unlike undoes like, deleting a comment undoes adding it).

Modules:

- `Outcomes`: HTTP statuses, `Option`, `Result`.
- `JsArray`: `indexOf`, `splice(start, 1)` (including a negative start), `filter`, `reduce`
  by `concat`, plus subsequence and first-occurrence reasoning.
- `Models`: the records and the store.
- `Recommendation`: `GET api/profile/recommendation`.
- `FollowGraph`: the follow, unfollow and remove-follower routes.
- `ProfileViews`: `GET api/profile/posts/:username` and `GET api/profile/saved/me`.
- `PostViews`: `GET api/posts` and `GET api/posts/:id`.
- `ViewAgreement`: how the read views agree with each other and with the handlers that
  change what they show.
- `PostActions`: like, unlike, save, unsave, comment, delete a comment, delete a post.
- `FollowingFeed`: `GET api/posts/you-following/:username`.
- `UserSearch`: `POST api/users/search`.
- `Registration`: `POST api/users`.

Where the route code contains a defect, the model follows the code literally (the `…AsWritten`
or plain-named function). A second function states the evidently intended behaviour, and both
are related by lemmas (see "## Findings").

Where the code's own comments state an intent the code does not carry out, the model follows
the code:

- **Recommendation dedup.** The final `reduce` (routes/api/profile.js:84-92) evidently means to
  drop repeated users. Its parameters are swapped, so it throws on any non-empty list, and the
  route answers 500 unless the list is empty.
- **Followers not followed back.** The comment at routes/api/profile.js:19 announces the
  followers the user does not follow back. The `reduce` under it compares distinct subdocuments
  with `===` and never removes anything (`Recommendation.NotFollowingBackKeepsAll`). The filter
  under the comment at line 62 then drops the followed accounts anyway.
- **Feed dedup.** The loop under the comment "removing duplicates" (routes/api/posts.js:351-358)
  compares two `ObjectId` objects with `==`, which is reference identity, so it removes nothing.
  Read by id, it would still skip the element after each splice.
- **Feed sort.** The sort under "sorting by dates" (routes/api/posts.js:360-361) compares
  `Date.parse` of the stringified date, which keeps whole seconds only. The model's key is
  `date / 1000`, with a stable sort, newest first.

## Model

| member | source | states |
|---|---|---|
| ProfileViews.Summaries | routes/api/profile.js:183-188 | one summary per post, same order, carrying id, file and the numbers of likes and comments |
| ProfileViews.SavedPosts | routes/api/profile.js:202-206 | exactly the posts the user has saved, in the date order they were read in |
| ProfileViews.SavedMe | routes/api/profile.js:200-219 | a summary appears iff it summarises a post the user saved; never longer than the posts read |
| PostViews.AllWithSavedFlag | routes/api/posts.js:49-61 | every post, same order, flagged saved iff the user is among its savers |
| PostViews.GetPost | routes/api/posts.js:66-87 | 404 iff the id is not stored; otherwise that post with the saved flag iff the user saved it |
| ViewAgreement.FlaggedAreSaved | routes/api/profile.js:200-206 | the posts the saved page keeps are exactly, and in the same order, those the post listing (routes/api/posts.js:49-61) flags as saved |
| ViewAgreement.SavedMeFromFlags | routes/api/profile.js:200-219 | the saved page is the summary of the posts the listing flags as saved |
| ViewAgreement.GetPostMatchesListing | routes/api/posts.js:49-87 | a post read by id equals the listing's entry for that post, flag included |
| ViewAgreement.SaveSetsFlag | routes/api/posts.js:66-87 | after a successful save (routes/api/posts.js:187-210) the post reads back flagged as saved |
| ViewAgreement.UnsaveClearsFlag | routes/api/posts.js:66-87 | after a successful corrected unsave of a post saved once, the post reads back unflagged |
| ViewAgreement.LikeCountsInSummary | routes/api/profile.js:183-188 | a successful like (routes/api/posts.js:133-153) raises the summarised like count by one and leaves the rest of the summary alone |
| ViewAgreement.CommentCountsInSummary | routes/api/profile.js:183-188 | a successful comment (routes/api/posts.js:250-281) raises the summarised comment count by one and leaves the rest of the summary alone |
| Recommendation.NotFollowingBackKeepsAll | routes/api/profile.js:20-25 | the "not following back" reduce removes no follower, because it compares subdocuments by identity |
| Recommendation.ResolveAll | routes/api/profile.js:27-37 | one suggestion per follower in order, built from that user's record; 500 iff some follower has no user record |
| Recommendation.SecondDegree | routes/api/profile.js:40-58 | the users followed by the users one follows, in order; 500 iff a followed profile or a user record is missing |
| Recommendation.SecondDegreeResolved | routes/api/profile.js:46-52 | every second-degree entry is `{user, avatar, username}` of the user record its id finds |
| Recommendation.Candidates | routes/api/profile.js:17-66 | 500 iff a lookup fails; every candidate is neither the user nor someone the user follows, and is `{user, avatar, username}` of the user record its id finds |
| Recommendation.CandidateIds | routes/api/profile.js:60-66 | the candidate ids are the followers then the second-degree ids, filtered by eligibility |
| Recommendation.FillFromPool | routes/api/profile.js:69-78 | entry i is `{user, username, avatar}` of the i-th user, in collection order, that is neither the profile's owner nor excluded; as many entries as `limit` allows, or all such users if fewer; no entry is the owner or excluded |
| Recommendation.Shortlist | routes/api/profile.js:13-82 | 500 iff a lookup fails; never more than five suggestions |
| Recommendation.ShortlistTopsUp | routes/api/profile.js:69-78 | under five candidates: they are kept in order and followed by `{user, username, avatar}` of the first users, as many as five minus the number of candidates, in collection order, that are not already suggested, not followed and not the user |
| Recommendation.ShortlistShuffles | routes/api/profile.js:79-82 | five or more candidates: the result is the first five of a permutation of them |
| Recommendation.ShortlistExcludes | routes/api/profile.js:62-82 | no shortlisted user is the user or someone the user follows |
| Recommendation.ShortlistFromRecords | routes/api/profile.js:27-82 | every shortlisted entry carries the id, avatar and username of a stored user record, on both the top-up and the shuffle path |
| Recommendation.FinalReduceAsWritten | routes/api/profile.js:84-92 | the final reduce succeeds only on an empty list and then returns it; otherwise it throws, giving 500 |
| Recommendation.RecommendationAsWrittenNeverSuggests | routes/api/profile.js:84-98 | the route as written never returns a suggestion; with no follows and another user it returns 500 |
| Recommendation.RecommendIsSound | routes/api/profile.js:84-92 | with a de-duplicating final step: at most five suggestions, no user twice, none the user or someone followed, each built from a stored user record |
| FollowGraph.FollowingAddEffect | routes/api/profile.js:299-317 | 500 iff either profile is missing; otherwise the target is prepended to following and the user to the target's followers, and nothing else changes |
| FollowGraph.FollowingAddKeepsMirrored | routes/api/profile.js:303-307 | following and followers stay mirrors of each other |
| FollowGraph.PostFollowingAdd | routes/api/profile.js:299-317 | the store's new state and status are those of the follow operation |
| FollowGraph.FollowingRemoveEffect | routes/api/profile.js:322-355 | 500 iff a profile is missing, 404 iff either side of the edge is absent, both changing nothing; otherwise the first occurrence is spliced out of each list, and nothing else changes |
| FollowGraph.FollowingRemoveKeepsMirrored | routes/api/profile.js:326-345 | following and followers stay mirrors of each other |
| FollowGraph.PostFollowingRemove | routes/api/profile.js:322-355 | the store's new state and status are those of the unfollow operation |
| FollowGraph.FollowerRemoveDropsUnrelatedEdge | routes/api/profile.js:265-281 | when the follower does not follow back, the as-written route still succeeds and cuts the last entry of the follower's following list |
| FollowGraph.FollowerRemoveAgreesWhenMirrored | routes/api/profile.js:265-281 | on a mirrored graph the as-written route and the intended one coincide |
| FollowGraph.FollowerRemoveIntendedEffect | routes/api/profile.js:261-294 | intended route: 500 iff a profile is missing, 404 iff either side of the edge is absent, both changing nothing; otherwise exactly the first `follower` entry of the requester's followers and the first requester entry of the follower's following are cut out, the rest in order |
| FollowGraph.FollowerRemoveIntendedKeepsMirrored | routes/api/profile.js:261-294 | the intended route keeps following and followers mirrored |
| FollowGraph.PostFollowerRemove | routes/api/profile.js:261-294 | the store's new state and status are those of the route as written |
| PostActions.LikeEffect | routes/api/posts.js:133-153 | 500 iff the post is missing, 400 iff already liked; otherwise the user is prepended to likes and nothing else changes |
| PostActions.LikeKeepsNoRepeats | routes/api/posts.js:137-146 | a like list without repeats stays without repeats |
| PostActions.PutLike | routes/api/posts.js:133-153 | the store's new state and status are those of the like operation |
| PostActions.UnlikeDropsAnotherLike | routes/api/posts.js:162-173 | unliking a post not liked answers 400 yet removes the last like, which is someone else's |
| PostActions.UnlikeIntendedEffect | routes/api/posts.js:158-182 | intended: 500 iff missing, 400 iff not liked, both changing nothing; otherwise the new database is the old one with the user's first like cut out of that post, so one like fewer, and with no repeats the user no longer likes it |
| PostActions.UnlikeUndoesLike | routes/api/posts.js:133-182 | a successful like followed by unlike restores the database, in both versions |
| PostActions.PutUnlike | routes/api/posts.js:158-182 | the store's new state and status are those of the route as written |
| PostActions.SaveEffect | routes/api/posts.js:187-210 | 400 iff already saved, 500 iff the post or the profile is missing, both changing nothing; otherwise the new database differs only in the user prepended to the post's saved list and the post prepended to the profile's |
| PostActions.SaveKeepsMirrored | routes/api/posts.js:192-203 | saves on posts and on profiles stay mirrored, and a save list without repeats keeps none |
| PostActions.PutSave | routes/api/posts.js:187-210 | the store's new state and status are those of the save operation |
| PostActions.UnsaveBreaksMirror | routes/api/posts.js:220-235 | a concrete database on which the as-written unsave answers 400 and leaves the save records out of step |
| PostActions.UnsaveEffect | routes/api/posts.js:215-245 | as written: 400 iff not saved, 500 iff the post is missing or saved without a profile, Ok otherwise; no change without the post or the profile |
| PostActions.UnsaveDropsLastSave | routes/api/posts.js:220-235 | as written, an unsave by a non-saver answers 400 yet cuts the last entry of the post's saved list, someone else's, and of the profile's list unless it lists the post; nothing else changes |
| PostActions.UnsaveAgreesWhenSaved | routes/api/posts.js:215-245 | when the user has saved the post, the as-written and the intended unsave coincide |
| PostActions.UnsaveIntendedEffect | routes/api/posts.js:215-245 | intended: 400 iff not saved, 500 iff the post or the profile is missing, both changing nothing; otherwise the user's first entry leaves the post's list, the post's first entry leaves the profile's list, and nothing else changes |
| PostActions.UnsaveIntendedKeepsMirrored | routes/api/posts.js:215-245 | the corrected unsave removes one copy from each side, so the save records stay in step |
| PostActions.PutUnsave | routes/api/posts.js:215-245 | the store's new state and status are those of the route as written |
| PostActions.CommentAddEffect | routes/api/posts.js:250-281 | 400 iff the text is empty, success iff the user and post exist; the new database differs only in a new comment heading that post's list, with the author's id, name and avatar, the text and the time |
| PostActions.PostComment | routes/api/posts.js:250-281 | the store's new state and status are those of the comment operation |
| PostActions.CommentDeleteEffect | routes/api/posts.js:286-315 | 500 iff the post is missing, 404 iff the comment id is absent, 401 iff the requested comment is someone else's, Ok otherwise; on success the as-written route removes the user's first comment, whatever its id |
| PostActions.CommentDeleteRemovesWrongComment | routes/api/posts.js:290-306 | with two comments by the user, deleting the older one removes the newer one instead |
| PostActions.CommentDeleteIntendedEffect | routes/api/posts.js:286-315 | intended: 500 iff the post is missing, 404 iff the id is absent, 401 iff the comment is someone else's, Ok otherwise; on success exactly the first comment with that id is removed |
| PostActions.CommentDeleteUndoesAdd | routes/api/posts.js:250-315 | deleting a comment just added restores the database, in both versions |
| PostActions.DeleteComment | routes/api/posts.js:286-315 | the store's new state and status are those of the route as written |
| PostActions.DeletePostEffect | routes/api/posts.js:92-128 | 404 iff missing, 401 iff not the owner, both changing nothing; otherwise the post is gone; 500 iff the user or profile is missing, with the profiles unchanged; on success only the post's entries leave the owner's post list and every other field and profile stays |
| PostActions.DeletePostKeepsListing | routes/api/posts.js:98-116 | if every post a profile lists is stored and written by that profile's owner, that stays true after the delete, provided a requester with a profile also has a user record |
| PostActions.DeletePostKeepsPostsListed | routes/api/posts.js:98-116 | if every stored post is listed in its owner's profile, that stays true after the delete, on every path |
| PostActions.RemovePost | routes/api/posts.js:92-128 | the store's new state and status are those of the delete operation |
| FollowingFeed.Present | routes/api/posts.js:331 | the null filter keeps exactly the values of the entries that are present, never more entries than it was given |
| FollowingFeed.FeedRefsOrder | routes/api/posts.js:322-337 | the post references are those of each followed profile that exists, in follow order, then the user's own |
| FollowingFeed.Resolve | routes/api/posts.js:339-349 | each loaded post is the stored post its reference names, in reference order, and every reference to a stored post gets its own load |
| FollowingFeed.ResolvedPosts | routes/api/posts.js:339-349 | a post is loaded iff some reference names it |
| FollowingFeed.SpliceDuplicates | routes/api/posts.js:352-358 | the nested splice loop computes the de-duplication function |
| FollowingFeed.DedupIsSubseq | routes/api/posts.js:352-358 | de-duplication only removes elements and keeps order |
| FollowingFeed.DedupKeepsFirst | routes/api/posts.js:352-358 | the first element with any key survives de-duplication |
| FollowingFeed.DedupDistinct | routes/api/posts.js:352-358 | a list without repeated keys is left unchanged |
| FollowingFeed.DedupMissesThird | routes/api/posts.js:352-358 | three equal entries come out as two: the loop skips the element after each splice |
| FollowingFeed.FeedDedupRemovesNothing | routes/api/posts.js:352-358 | comparing ObjectId objects with `==` never matches, so the feed is the loaded posts sorted |
| FollowingFeed.SortByDate | routes/api/posts.js:361 | the sort is a permutation and newest first by whole seconds |
| FollowingFeed.SortIsStable | routes/api/posts.js:361 | posts dated in the same second keep their relative order |
| FollowingFeed.Feed | routes/api/posts.js:320-368 | 500 iff no profile has the requested username |
| FollowingFeed.YouFollowing | routes/api/posts.js:320-368 | the handler's result is the feed of the current store |
| FollowingFeed.FeedContents | routes/api/posts.js:320-363 | the feed is newest first, holds exactly the stored posts some reference names, and as a multiset equals the loads, one per reference to a stored post |
| FollowingFeed.FeedOfOwnPosts | routes/api/posts.js:320-363 | following no one, the feed is the user's own stored posts sorted newest first |
| FollowingFeed.FeedRepeatsPosts | routes/api/posts.js:322-358 | following an account twice shows its post twice |
| FollowingFeed.FeedOrdersByDate | routes/api/posts.js:320-363 | a user following two accounts sees all four posts newest first |
| FollowingFeed.FeedIntendedIsSound | routes/api/posts.js:352-361 | de-duplicated by id: newest first, no id twice, every loaded id present, nothing else |
| UserSearch.Split | routes/api/users.js:104 | splitting always yields at least one piece, the empty text included |
| UserSearch.SplitPiecesFree | routes/api/users.js:104 | no piece contains the separator |
| UserSearch.JoinSplit | routes/api/users.js:104 | joining the pieces with the separator gives the text back |
| UserSearch.LowerChar | routes/api/users.js:113 | an ASCII capital maps to the same letter in lower case (code point plus 32), everything else is unchanged |
| UserSearch.Contains | routes/api/users.js:113 | true iff the needle occurs at some position of the text |
| UserSearch.MatchesSomeWord | routes/api/users.js:112-115 | the inner filter is non-empty iff some word, lowercased, occurs in the lowercased username |
| UserSearch.Search | routes/api/users.js:101-122 | 500 iff the search text is absent; the result keeps the users' order |
| UserSearch.SearchKeeps | routes/api/users.js:111-116 | a user is returned iff it is stored and some word, lowercased, occurs in its lowercased username |
| UserSearch.EmptyWordMatchesAll | routes/api/users.js:104-116 | a search text with an empty word returns every user |
| UserSearch.EmptySearchMatchesAll | routes/api/users.js:104-116 | the empty search text returns every user |
| UserSearch.EmptyPieceAfter | routes/api/users.js:104 | a separator at the end of the text or before another separator leaves an empty piece after the first |
| UserSearch.SpaceMakesEmptyWord | routes/api/users.js:104 | a leading, trailing or doubled space yields an empty word |
| UserSearch.SpacedSearchMatchesAll | routes/api/users.js:104-116 | a search text with a leading, trailing or doubled space returns every user |
| Registration.ValidationErrors | routes/api/users.js:17-30 | no error iff the full name is set, the email is valid and the password has six or more characters; the username is never checked |
| Registration.RegisterRefusals | routes/api/users.js:27-50 | 400 iff validation fails, then 409 on "email" iff the email is taken, then 409 on "username" iff the username is taken, success otherwise; refusals change nothing |
| Registration.RegisterCreatesOneProfile | routes/api/users.js:52-71 | success appends one user with the submitted email, username and full name and the hashed password, and adds one empty profile with the same id, avatar, full name and username; posts and the other profiles stay |
| Registration.RegisterKeepsInvariants | routes/api/users.js:35-71 | unique emails and usernames, and a profile for every user, are preserved |
| Registration.EmptyUsernameAccepted | routes/api/users.js:19-50 | an empty username passes validation and registers |
| Registration.PostRegister | routes/api/users.js:15-96 | the store's new state and status are those of the registration |

## Left out

- Authentication middleware, JWT signing and `bcrypt` hashing. The caller's id, the new user's id, the default avatar and the hashed password are parameters. `routes/api/auth.js` and `routes/api/shared.js` are not part of this model.
- Post creation (`routes/api/posts.js:13-45`), the avatar change (`routes/api/profile.js:224-256`), `GET /:username` and the `/following` and `/followers` lists of `routes/api/profile.js` are outside the modelled core.
- Mongo query semantics. The results of `find().sort({ date: -1 })`, `findOne({ username })` and `isEmail` are parameters (`byDate`, `found`, `emailValid`). So are the comment id and the time of a new comment.
- `Math.random` is a caller-supplied permutation.
- Concurrency and write ordering are not modelled. This includes the unawaited `profile.save()` in registration and two requests racing on the same documents. Each pair of saves is modelled as landing in sequence.
- Mongoose array versioning is not modelled. A user who follows or saves themselves is modelled as both saves landing on the same record.
- The `err.kind === 'ObjectId'` 404 paths for malformed ids are not modelled: ids are numbers. The unfollow route's double send after such an error is not modelled either.
- Response bodies (which fields are echoed back) are not modelled. Only statuses and the stored state are.
- PostActions.DeletePost: does not model the cleanup of `user.saved` at `routes/api/posts.js:108-112`, because the User schema is not part of this model. A missing user or profile after the post is removed gives 500, with the post already gone.
- Registration.Register: an undefined `username` field, which `findOne` would match against any user, is not modelled. Request fields are strings.
- UserSearch.Search: does not model Unicode case mapping (only ASCII letters are lowered) or a non-string `searchText`.

## Findings

| source | as written | input that shows it | evidently intended | confidence | as-written member | corrected member |
|---|---|---|---|---|---|---|
| routes/api/profile.js:84-92 | the reducer's parameters are swapped, so `prev.find` is called on a suggestion object and throws | any non-empty shortlist, e.g. a user following no one with one other registered user | drop repeated users and return up to five suggestions | not executed | Recommendation.RecommendationAsWrittenNeverSuggests | Recommendation.RecommendIsSound |
| routes/api/profile.js:272-281 | the second guard repeats `removeIndex` instead of testing `followerIndex`, so `splice(-1, 1)` runs | a follower who does not follow back and follows someone else | 404 when the follower does not follow back | not executed | FollowGraph.FollowerRemoveDropsUnrelatedEdge | FollowGraph.FollowerRemoveIntendedKeepsMirrored |
| routes/api/posts.js:162-173 | the 400 branch has no `return`, so the handler splices at index -1 | unlike by a user who has not liked a post with other likes | answer 400 and change nothing | not executed | PostActions.UnlikeDropsAnotherLike | PostActions.UnlikeIntendedEffect |
| routes/api/posts.js:220-235 | the 400 branch has no `return`, so both lists are spliced at index -1 | unsave by a user who has not saved the post | answer 400 and change nothing | not executed | PostActions.UnsaveDropsLastSave | PostActions.UnsaveIntendedKeepsMirrored |
| routes/api/posts.js:302-306 | the index is looked up by author, not by comment id | two comments by the same user, deleting the older one | remove the comment with the requested id | not executed | PostActions.CommentDeleteRemovesWrongComment | PostActions.CommentDeleteIntendedEffect |
| routes/api/posts.js:352-358 | `==` on ObjectId objects compares references, and after a splice `j` is not stepped back | following the same account twice | each post once | not executed | FollowingFeed.FeedRepeatsPosts | FollowingFeed.FeedIntendedIsSound |
