# Video platform backend: a Dafny model of the request handlers

This project models the core of a video-sharing backend: an Express application over a
MongoDB document store. The core is the authentication gate, user registration and the
handlers for videos, comments, tweets, playlists, likes, subscriptions and the channel
dashboard.

The model is pure. The document store is the immutable datatype `Store.Store`, with one
sequence per collection in creation order. Every handler is a function

    (store, caller, request fields) -> Handled(store afterwards, response)

A response is `Ok(code, data)` or `Err(status)`. `Status(code)` is an `ApiError` with a
numeric status. `Unspecified` is an error whose status the error adapter decides: an
`ApiError` built with a message instead of a code, a `TypeError` from a missing field, a
schema validation failure or a duplicate key.

Modules follow the source layout:

- `Ids`: `isValidObjectId` on strings; the cast of a parameter to an ObjectId, whose
  canonical spelling is lower-case hex.
- `Text`: the JavaScript string operations the handlers use: `trim`, truthiness,
  ASCII `toLowerCase`, first-occurrence `replace`, and the `split` pieces of `getPublicId`.
- `Seqs`: generic sequence functions (first match, remove at, filter, count, sum, reverse,
  newest first, window) and their lemmas.
- `Paging`: `skip`/`limit` page windows.
- `Store`: the documents and the handler answer type.
- `Auth`: `verifyJWT` and the gate in front of every protected route.
- `Users`: `registerUser` and the user schema's normalisation.
- `Videos`, `Comments`, `Tweets`, `Playlists`, `Likes`, `Subscriptions`, `Dashboard`: one
  module per controller.

Whatever the handlers take from outside is a parameter:

- the id the driver generates for a new document (`newId`);
- what the media host answers to an upload (`Upload`);
- the JWT verifier (`verify`);
- the password hash (`hash`);
- the `$regex` match of the video search (`matches`).

"Newest first" (`sort({createdAt: -1})`) is the reverse of creation order.

## Model

| member | source | states |
|---|---|---|
| Ids.Cast | src/controllers/tweet.controller.js:53-56 | A query casts a valid id parameter to an id of the same length that is valid and canonical (lower-case) |
| Text.Trim | src/controllers/tweet.controller.js:16 | `trim` gives the contiguous middle of the input, with only white space cut on each side; it neither starts nor ends with white space; it is empty exactly when the input is all white space |
| Text.TrimIdempotent | src/controllers/tweet.controller.js:71 | Trimming a trimmed string changes nothing |
| Text.Lower | src/models/user.model.js:5-19 | The schema's `lowercase` keeps the length and lowers each character on its own |
| Text.ReplaceFirst | src/middleware/auth.middleware.js:13 | `replace` with a string pattern changes a string without the pattern in no way, and otherwise replaces only the first occurrence |
| Text.BeforeFirst | src/controllers/video.controller.js:180-181 | `split(c)[0]` is the longest prefix without `c`, and is followed by `c` when shorter than the input |
| Text.AfterLast | src/controllers/video.controller.js:181 | `split(c).pop()` is the longest suffix without `c`, and is preceded by `c` when shorter than the input |
| Text.BeforeFirstUnique | src/controllers/video.controller.js:180-181 | Those properties determine `split(c)[0]` uniquely |
| Text.AfterLastUnique | src/controllers/video.controller.js:181 | Those properties determine `split(c).pop()` uniquely |
| Paging.Paginate | src/controllers/comment.controller.js:18-26 | A page fails exactly when the skip is negative (page 0 with a positive limit); otherwise it holds the rows at positions skip, skip+1, … of the sorted rows, and exactly as many as are left after the skip, at most `limit` of them when the limit is positive |
| Paging.PagesTile | src/controllers/comment.controller.js:18-26 | Pages p and p+1 together are the window of 2·limit rows from page p's skip: paging neither skips nor repeats a row |
| Paging.PageOf | src/controllers/comment.controller.js:18-26 | A page of a filtered newest-first listing fails exactly on a negative skip; otherwise every entry is stored and matches the filter, the entries are consecutive rows of the listing from the skip on, and there are exactly as many as the matching rows left after the skip, at most `limit` |
| Auth.Public | src/middleware/auth.middleware.js:25 | The user attached to the request has every field of the stored user except the password and the refresh token |
| Auth.ExtractToken | src/middleware/auth.middleware.js:13 | A non-empty cookie token is used as is; with no cookie and no header there is no token; otherwise the token is taken from the header and is no longer than it (its exact value is stated by `Auth.BearerHeader` and `Auth.BearerAnywhere`) |
| Auth.FindUser | src/middleware/auth.middleware.js:25-30 | A user is found exactly when the token's id claim is present, valid and names a stored user; that user is the one returned |
| Auth.Authenticate | src/middleware/auth.middleware.js:10-39 | The gate passes exactly when a token is present, verifies and names a stored user; it then attaches that user's public view; every other case is 401 |
| Auth.Guarded | src/middleware/auth.middleware.js:16-39 | Behind the gate, a refused request gets 401 with the store unchanged and the handler not run; an accepted one is exactly the handler's answer for the attached user |
| Auth.CookieTakesPrecedence | src/middleware/auth.middleware.js:13 | A non-empty cookie is the token, whatever the header says, and a cookie the verifier rejects gives 401 |
| Auth.BearerHeader | src/middleware/auth.middleware.js:13 | "Bearer " followed by a token yields that token |
| Auth.BearerAnywhere | src/middleware/auth.middleware.js:13 | The header is not parsed as scheme and token: the first "Bearer " is cut out wherever it stands |
| Auth.NoTokenUnauthorized | src/middleware/auth.middleware.js:16-18 | With no cookie, and a header that is missing, empty or just "Bearer ", the request gets 401 and the store is unchanged |
| Auth.UnknownSubjectUnauthorized | src/middleware/auth.middleware.js:25-30 | A verified token whose subject is not a stored user gives 401 |
| Users.Normalized | src/models/user.model.js:5-19 | The schema's `trim` and `lowercase` give a value that is already lower-case and trimmed, as long as the trimmed input and never longer than the input |
| Users.Precheck | src/controllers/user.controller.js:14-55 | The checks run in the handler's order: a blank field gives 400; a missing email throws; an email without "@" gives 400; an existing email or username gives 409; passing needs an available account, an avatar file and an avatar upload |
| Users.RegisterUser | src/controllers/user.controller.js:8-84 | Registration as intended: it succeeds exactly when every check passes, the create does not fail the schema and the new id is unused; every refusal leaves the store unchanged, with the statuses of the checks, and a missing email or a missing avatar file throws without a status; success (201) appends exactly one user with a normalised username and email, a trimmed full name, the hashed password, the avatar url and "" for a missing cover, and answers that user's public view |
| Users.RegisterUserAsWritten | src/models/user.model.js:51-55 | The repository's registration never changes the store and always answers an error |
| Users.RegistrationNeverSucceedsAsWritten | src/models/user.model.js:51-55 | On every request that the intended registration accepts, the repository's registration fails without a status |
| Users.RegistrationAgreesOnRefusals | src/controllers/user.controller.js:14-55 | The repository's and the intended registration answer alike on every request the checks refuse |
| Users.RegisterKeepsAccountsDistinct | src/controllers/user.controller.js:24-30 | If stored emails and usernames are pairwise distinct, they still are after a registration |
| Users.RegisterTwiceConflicts | src/controllers/user.controller.js:24-30 | Registering the same form again after it succeeded is refused with 409 and changes nothing |
| Videos.GetAllVideos | src/controllers/video.controller.js:9-58 | The listing fails exactly when the skip is negative; otherwise each video is stored and matches the filter (published, the search, the owner); they are consecutive rows of the newest-first listing from the skip on, exactly as many as the matching videos left after the skip, and at most `limit` |
| Videos.ListedVideosArePublished | src/controllers/video.controller.js:27-45 | Every listed video is published, and is owned by `userId` when that is a valid id |
| Videos.PublishAVideo | src/controllers/video.controller.js:60-112 | Missing text gives 400, missing files 400, a failed upload 500, all without changing the store; an upload answer without a duration fails the schema, without a status; it succeeds exactly when all of these pass and the new id is unused, and then (201) appends exactly one video: the caller's, with trimmed non-blank text, the uploaded urls and duration, published and with 0 views |
| Videos.TogglePublishStatus | src/controllers/video.controller.js:114-150 | An invalid id gives 400 and an id that is not one of the caller's videos gives 404; otherwise exactly the caller's video has its published flag negated, in place |
| Videos.TogglePublishTwice | src/controllers/video.controller.js:114-150 | Two toggles in a row restore the store |
| Videos.GetPublicId | src/controllers/video.controller.js:179-182 | The public id derived from a media url contains no "/", "." or "?" |
| Videos.ThumbnailPublicId | src/controllers/video.controller.js:233 | The old thumbnail's public id contains no "/" or "." |
| Videos.PublicIdOfUploadUrl | src/controllers/video.controller.js:177-182 | A delivery url `<dir>/<id>.<ext>` without a query string yields `<id>` |
| Videos.PublicIdIgnoresQuery | src/controllers/video.controller.js:180 | A query string appended to a url does not change its public id |
| Videos.ThumbnailPublicIdAgrees | src/controllers/video.controller.js:233 | On a url without a query string, the updateVideo spelling of the public id agrees with deleteVideo's |
| Videos.DeleteVideo | src/controllers/video.controller.js:152-197 | An invalid id gives 400 and a video the caller does not own 404; otherwise one video with that id is removed and nothing else in the store changes |
| Videos.DeleteVideoRemovesIt | src/controllers/video.controller.js:192 | With unique video ids, a successful delete removes the caller's video, and no video with that id is left |
| Videos.Patched | src/controllers/video.controller.js:237-241 | Only the supplied title, description and thumbnail change, title and description trimmed; id, owner, file, duration, views and the published flag are kept |
| Videos.UpdateVideo | src/controllers/video.controller.js:199-248 | An invalid id, or nothing to update, gives 400; a video the caller does not own 404; a thumbnail file whose upload fails 500; errors leave the store unchanged; success patches the caller's video in place, after a successful thumbnail upload when a file was sent; a truthy but blank title or description fails the schema |
| Videos.UpdateVideoSucceeds | src/controllers/video.controller.js:199-248 | An update of one's own video that carries something, whose thumbnail (if any) uploads and whose given text is not blank succeeds, when the stored videos have the text the schema requires |
| Videos.UpdateVideoIdempotent | src/controllers/video.controller.js:199-248 | Repeating an update that sends no thumbnail file gives the same store and response |
| Videos.GetVideoById | src/controllers/video.controller.js:250-277 | An invalid id gives 400, an unknown one 404; the first video with the id is shown exactly when it is published or the caller is its owner, and otherwise gives 403; the store never changes |
| Videos.PublishedVideoShownToAll | src/controllers/video.controller.js:60-112 | A video just published is shown by getVideoById to any caller, signed in or not |
| Videos.GetVideoByIdAsRouted | src/routes/video.routes.js:34 | As the route wires it, with no gate and so no known caller, only published videos are ever shown, and the store never changes |
| Videos.DraftHiddenFromOwnerAsRouted | src/routes/video.routes.js:34 | As routed, the owner of a draft gets 403 for it, while the handler given the owner as caller shows it |
| Comments.GetVideoComments | src/controllers/comment.controller.js:8-36 | An invalid video id gives 400; a negative skip fails; otherwise it answers consecutive rows, from the skip on, of the video's comments (everyone's, newest first): exactly as many as are left after the skip, and at most `limit` |
| Comments.AddComment | src/controllers/comment.controller.js:38-59 | An invalid video id or no text gives 400 and the store is unchanged; success (201) appends exactly the trimmed comment by the caller on that video |
| Comments.UpdateComment | src/controllers/comment.controller.js:61-93 | It succeeds exactly when the id is valid, there is text and the caller owns such a comment; it then trims and replaces only that comment's content, in place; otherwise 400 |
| Comments.DeleteComment | src/controllers/comment.controller.js:95-116 | It succeeds exactly when the caller owns a comment with that id; it then removes one comment with that id and nothing else; otherwise 400 |
| Comments.AddThenDeleteComment | src/controllers/comment.controller.js:38-116 | Deleting a comment one has just added restores the store |
| Comments.UpdateCommentIdempotent | src/controllers/comment.controller.js:61-93 | Repeating an edit with the same text gives the same store and response |
| Comments.NewCommentListedFirst | src/controllers/comment.controller.js:20-26 | A comment just added heads the first page of its video's comments |
| Tweets.CreateTweet | src/controllers/tweet.controller.js:7-23 | No text gives 400 and the store is unchanged; success (201) appends exactly the caller's trimmed, non-blank tweet |
| Tweets.GetUserTweets | src/controllers/tweet.controller.js:25-42 | An invalid id gives 400; otherwise the answer is exactly the user's tweets, newest first |
| Tweets.UpdateTweet | src/controllers/tweet.controller.js:44-85 | An invalid id, no text or a tweet the caller does not own gives 400; success trims and replaces only that tweet's content, in place |
| Tweets.DeleteTweet | src/controllers/tweet.controller.js:87-108 | An invalid id gives 400 and a tweet the caller does not own 403; success removes one tweet with that id, nothing else, and sends back the caller's tweet |
| Tweets.CreateThenDeleteTweet | src/controllers/tweet.controller.js:7-108 | Deleting a tweet one has just posted restores the store and sends that tweet back |
| Tweets.UpdateTweetIdempotent | src/controllers/tweet.controller.js:44-85 | Repeating an edit with the same text gives the same store and response |
| Tweets.NewTweetListedFirst | src/controllers/tweet.controller.js:35 | A tweet just posted heads its author's tweet list |
| Playlists.AddToSet | src/controllers/playlist.controller.js:69-83 | `$addToSet` changes nothing when the id is already there, and otherwise appends it once, at the end; the result holds the old ids and the new one and nothing else |
| Playlists.Pull | src/controllers/playlist.controller.js:140 | `pull` removes every copy of the id, keeps every other id and adds none; the multiset of what is left is the old multiset without the id |
| Playlists.PullConcat | src/controllers/playlist.controller.js:140 | Pulling from two concatenated lists is pulling from each, so the kept ids stay in their order |
| Playlists.PullSingle | src/controllers/playlist.controller.js:140 | A one-id list loses its id exactly when it is the pulled id |
| Playlists.CreatePlaylist | src/controllers/playlist.controller.js:8-26 | A name without text gives 400 and a missing description throws, both without changing the store; success (201) appends exactly the caller's empty playlist with trimmed name and description |
| Playlists.GetUserPlaylist | src/controllers/playlist.controller.js:28-42 | An invalid id gives 400; otherwise the answer is exactly the user's playlists, newest first |
| Playlists.AddVideoToPlaylist | src/controllers/playlist.controller.js:44-94 | Invalid ids give 400; a missing playlist is an error without a status; someone else's playlist gives 200 with null data and no change; the owner's playlist gets the video added as a set, in place |
| Playlists.GetPlaylistById | src/controllers/playlist.controller.js:96-115 | It succeeds exactly when the caller owns a playlist with that id, and answers that playlist; otherwise 400 |
| Playlists.CreatedPlaylistFound | src/controllers/playlist.controller.js:8-115 | A playlist just created is found by its owner |
| Playlists.RemoveVideoFromPlaylist | src/controllers/playlist.controller.js:117-148 | Invalid ids or a playlist the caller does not own give 400; errors leave the store unchanged; it succeeds when the caller's playlist lists the parameter as spelled, and then pulls the video from that playlist in place |
| Playlists.RemovedVideoIsGone | src/controllers/playlist.controller.js:140 | After a successful removal no copy of the video is left in the playlist |
| Playlists.RemoveAbsentVideoRefused | src/controllers/playlist.controller.js:136-138 | Removing a video the caller's playlist does not list, in the spelling given, gives 400 and changes nothing |
| Playlists.DeletePlaylist | src/controllers/playlist.controller.js:150-176 | It succeeds exactly when the caller owns the playlist; it then removes one playlist with that id, nothing else, and echoes the parameter; otherwise 400 |
| Playlists.CreateThenDeletePlaylist | src/controllers/playlist.controller.js:8-176 | Deleting a playlist one has just created restores the store and echoes its id |
| Playlists.PatchedPlaylist | src/controllers/playlist.controller.js:193-199 | Only the fields with text change, trimmed; id, owner and videos are kept |
| Playlists.UpdatePlaylist | src/controllers/playlist.controller.js:178-215 | An invalid id gives 400; neither field truthy is an error without a status; a playlist the caller does not own gives 404; success patches the caller's playlist in place |
| Playlists.AddVideoIdempotent | src/controllers/playlist.controller.js:69-83 | Adding the same video again gives the same store and response |
| Playlists.AddVideoByNonOwnerChangesNothing | src/controllers/playlist.controller.js:69-83 | A caller who owns no playlist with that id cannot change the store by adding |
| Playlists.AddThenRemoveVideo | src/controllers/playlist.controller.js:44-148 | Adding a video that is not in the owner's playlist and then removing it restores the store |
| Playlists.UpdatePlaylistIdempotent | src/controllers/playlist.controller.js:178-215 | Repeating an update with the same fields gives the same store and response |
| Playlists.NewPlaylistListedFirst | src/controllers/playlist.controller.js:35-37 | A playlist just created heads its owner's playlist list |
| Likes.ToggleLike | src/controllers/like.controller.js:8-38 | An invalid id gives 400; an existing like for (caller, field, target) is deleted, one copy, with null data; otherwise exactly that like is appended and sent back; only the likes change |
| Likes.ToggleLikeKeepsUnique | src/controllers/like.controller.js:17-33 | If every (liker, field, target) key has at most one like, a toggle keeps it so |
| Likes.ToggleLikeKeepsSingleTarget | src/controllers/like.controller.js:33 | A toggle keeps every like naming exactly one target |
| Likes.ToggleLikeKeepsOthers | src/controllers/like.controller.js:17-33 | A toggle keeps every like with another key, in order |
| Likes.ToggleLikeTwiceFromUnliked | src/controllers/like.controller.js:8-38 | From no like, two toggles create then delete the like and restore the store |
| Likes.ToggleLikeTwiceFromLiked | src/controllers/like.controller.js:8-38 | From a like, two toggles delete then re-create it: the likes afterwards are the same multiset |
| Likes.PopulateVideo | src/controllers/like.controller.js:114-117 | `populate` gives a stored video's selected fields exactly when one with that id exists, and null otherwise |
| Likes.PopulateAll | src/controllers/like.controller.js:120 | Each like is replaced by its populated video, position by position |
| Likes.GetLikedVideos | src/controllers/like.controller.js:103-123 | An invalid caller id gives 400; otherwise the answer, read oldest first, is the populated video of each of the caller's video likes in order: newest first, and the same multiset of entries |
| Likes.NewVideoLikeListedFirst | src/controllers/like.controller.js:111-118 | A like just created heads the liker's liked-videos list |
| Subscriptions.ToggleSubscription | src/controllers/subscription.controller.js:8-51 | An invalid id or the caller's own id, as spelled, gives 400; an existing edge is deleted, one copy, with null data; otherwise exactly the new edge is appended and sent back; only subscriptions change |
| Subscriptions.ToggleSubscriptionChecked | src/controllers/subscription.controller.js:25-27 | With the check on the cast id, a caller's own channel in any spelling gives 400, every other request behaves as the repository's handler, and no self-subscription is ever created |
| Subscriptions.UpperSpellingExample | src/controllers/subscription.controller.js:25-27 | A valid id's upper-case spelling is itself valid, differs from it as a string, and casts back to it |
| Subscriptions.SelfSubscriptionSlipsThrough | src/controllers/subscription.controller.js:25-27 | A spelling of the caller's own id that differs from the stored one passes the check, and a caller not yet subscribed ends up subscribed to their own channel |
| Subscriptions.ToggleSubscriptionKeepsUnique | src/controllers/subscription.controller.js:29-46 | If every (subscriber, channel) pair has at most one edge, a toggle keeps it so |
| Subscriptions.ToggleSubscriptionTwiceFromUnsubscribed | src/controllers/subscription.controller.js:29-50 | From no edge, two toggles restore the store and answer null |
| Subscriptions.ToggleSubscriptionTwiceFromSubscribed | src/controllers/subscription.controller.js:29-50 | From an edge, two toggles give the same multiset of edges |
| Subscriptions.GetUserChannelSubscribers | src/controllers/subscription.controller.js:53-78 | An invalid id gives 400; otherwise the answer holds exactly the channel's edges |
| Subscriptions.GetSubscribedChannels | src/controllers/subscription.controller.js:80-97 | An invalid id gives 400; otherwise the answer holds exactly the subscriber's edges |
| Subscriptions.ToggleShowsInSubscriberList | src/controllers/subscription.controller.js:29-78 | A subscribing toggle appends the caller to the channel's subscriber list, and an unsubscribing one shortens it by one |
| Subscriptions.ToggleShowsInSubscribedList | src/controllers/subscription.controller.js:29-97 | A subscribing toggle appends the new edge to the caller's subscribed list, and an unsubscribing one shortens it by one |
| Dashboard.GetChannelStats | src/controllers/dashboard.controller.js:10-66 | The caller's stats: video count, view sum, the caller's comments, subscribers, and likes on the caller's videos; all three video totals are 0 for a channel without videos |
| Dashboard.GetChannelVideos | src/controllers/dashboard.controller.js:68-78 | The answer is exactly the caller's videos, drafts included, newest first |
| Dashboard.VideoLikeToggleMovesTotalLikes | src/controllers/dashboard.controller.js:40-45 | A like toggle on one of the channel's videos moves totalLikes by exactly one, down when it unlikes and up when it likes |
| Dashboard.SubscriptionToggleMovesTotalSubscribers | src/controllers/dashboard.controller.js:31-34 | A subscription toggle to the channel moves totalSubscribers by exactly one |
| Dashboard.PublishToggleKeepsStats | src/controllers/dashboard.controller.js:19-29 | Flipping any video's published flag leaves every channel's stats unchanged |
| Dashboard.NewVideoListedFirst | src/controllers/dashboard.controller.js:71-73 | A video just published heads the channel's video list |

## Left out

- Media uploads and deletions: the `Upload` parameters stand for the upload answers, and the media host's `destroy` calls, which change no document, are not modelled.
- Multer and the local files: a file is its local path, or absent.
- Password hashing: `hash` is a parameter. JWT signing and verification: `verify` is a partial function from token to payload, so expiry and signatures are its business.
- Login, logout, token refresh, the user profile routes and the health check are not in the modelled core.
- Route wiring: a protected handler is modelled as the function the gate calls with the attached user (`Auth.Guarded`).
- Concurrency: requests are applied one at a time. The likes and subscriptions collections have no unique index, so two racing toggles can create duplicates. The uniqueness lemmas speak only of sequential toggles.
- `Videos.GetAllVideos`: the `$regex` search with option "i" is the abstract `matches`, because regular expressions are not modelled. `sortBy` and `sortType` are read but never used by the handler.
- Query parameters `page` and `limit` are taken as naturals. `Number()` of non-numeric, negative or fractional text is not modelled.
- `Text.Lower`: lower-cases ASCII letters only, because every id and the normalised fields compared here are ASCII.
- `createdAt` is not stored. Newest first is the reverse of insertion order, which assumes that creation times increase with insertion.
- `Comments.GetVideoComments` takes no caller: the route is not behind the gate and the handler never reads the user.
- `populate` of the subscriber and channel users in the subscription lists is not modelled: the lists answer the edges themselves.
- `console.log` calls have no effect on the model.
- src/middleware/auth.middleware.js:5 and :8 import modules without the ".js" extension, which Node's ES module loader refuses. The model takes the middleware as evidently intended.
- `Users.AccountTaken`: an absent username is taken to match no stored user, because every stored user has a username. How the driver serialises `{username: undefined}` is not modelled.
- `Users.RegisterUser`: the `findById` after `create` is taken to find the user just created; its 500 branch is not modelled.
- `Playlists.RemoveVideoFromPlaylist`: the removed video's absence and the refusal of an unlisted video are stated by `Playlists.RemovedVideoIsGone` and `Playlists.RemoveAbsentVideoRefused`.
- `Likes.GetLikedVideos`: the selected field "desciption" names no field, so the populated video omits the description.
- `Videos.PublishAVideo`: the duration is whole seconds; the media host's fractional duration is not modelled.
- `Videos.UpdateVideo`: success is promised, by `Videos.UpdateVideoSucceeds`, only when the stored videos have non-empty text, as the schema demands of every saved video; the store datatype does not enforce it.
- `Videos.DeleteVideo`: the likes, comments and playlist entries that refer to a deleted video are left in place, as in the handler.

## Findings

| source | as written | input that shows it | evidently intended | confidence | as-written member | corrected member |
|---|---|---|---|---|---|---|
| src/controllers/subscription.controller.js:25-27 | The self-subscription check compares the raw `channelId` string with the caller's id string | Caller `0123456789abcdef01234567` toggles channel `0123456789ABCDEF01234567`: the check passes, and the query casts the parameter to the caller's own id | A user can never subscribe to their own channel, in any spelling of their id | not executed | Subscriptions.SelfSubscriptionSlipsThrough | Subscriptions.ToggleSubscriptionChecked |
| src/models/user.model.js:51-55 | The pre-save hook calls `bcrypt.hash`, but the file never imports `bcrypt`; the hash is also not awaited | Any registration that passes every check: `User.create` throws, so no user is ever registered | The stored password is the hash of the given one, and registration answers 201 | not executed | Users.RegistrationNeverSucceedsAsWritten | Users.RegisterUser |
| src/routes/video.routes.js:34 | The getVideoById route is not behind `verifyJWT`, so the handler never sees a user | The owner of a draft requests it: `req.user` is undefined and the handler answers 403 | Only the creator can see a draft (src/controllers/video.controller.js:267): the owner is shown their own draft | not executed | Videos.DraftHiddenFromOwnerAsRouted | Videos.GetVideoById |
