# tube-and-fuss handlers in Dafny

This project models the request handlers of the tube-and-fuss video-sharing
backend. The backend is an Express server over MongoDB collections of users,
videos, comments, likes, tweets, playlists and subscriptions, with media kept
on Cloudinary.

The document store is a class `Store.Db`. It holds one map per collection,
keyed by document id, and a counter `nextId` that hands out fresh ids in
creation order. Natural order (insertion order) is therefore ascending id.

Every handler is a method or function over the store. It returns either
`Ok(payload)` or `Err(status)`, using the HTTP status the handler sends or
the 500 that an uncaught exception turns into. Each handler's contract
states:

- which status each failed check produces, and the order of the checks;
- that the store is unchanged on an error;
- the exact new state on success.

Lemmas and small "client" methods prove the properties that relate several
calls. These include:

- toggling twice restores what was there;
- adding to a playlist twice is the same as adding once;
- a rotated refresh token is refused;
- a deleted comment is no longer listed.

The files follow the source:

- `common.dfy`: ids, outcomes, JavaScript truthiness, `trim` and `toLowerCase`.
- `order.dfy`: natural-order listing, `findOne`, `$last`, `$addToSet` and `$pull`.
- `store.dfy`: the records, the store class, like and subscriber counts.
- `cloudinary.dfy`: the upload and delete helpers of `src/utils/cloudinary.js`.
- `video.dfy`, `playlist.dfy`, `user.dfy`, `comment.dfy`, `tweet.dfy`, `subscription.dfy`: one module per controller.

## Model

| member | source | states |
|---|---|---|
| Common.Trim | src/controllers/video.controller.js:93-95 | The trimmed string neither starts nor ends with whitespace and is empty exactly when the input is blank, so a `trim() === ""` guard fires on blank input and nothing else |
| Common.ToLower | src/controllers/user.controller.js:46 | The stored username has the same length, each upper-case ASCII letter replaced by its lower-case counterpart, no upper-case ASCII letter left, and every other character unchanged |
| Common.ToLowerIdempotent | src/controllers/user.controller.js:46 | Lower-casing a lower-cased name changes nothing |
| Order.Ascending | src/controllers/tweet.controller.js:44-49 | A collection scan lists exactly the matching ids in the range, in increasing (insertion) order |
| Order.Descending | src/controllers/comment.controller.js:17-27 | The createdAt-descending order lists exactly the matching ids, newest first |
| Order.AscendingAll | src/controllers/playlist.controller.js:62-70 | When every member is below the bound, the natural-order listing has as many entries as the set has members |
| Order.First | src/controllers/subscription.controller.js:15-17 | `findOne` answers a member that is not after any other member, and answers nothing only when no member is below the bound |
| Order.FirstOfBounded | src/controllers/subscription.controller.js:15-17 | When all ids are allocated, `findOne` finds something exactly when a match exists, and finds the earliest one |
| Order.Last | src/controllers/subscription.controller.js:73-77 | `$last` answers a member that no other member follows |
| Order.LastOfBounded | src/controllers/subscription.controller.js:73-77 | When all ids are allocated, `$last` finds something exactly when a match exists, and finds the latest one |
| Order.AddToSet | src/controllers/playlist.controller.js:201-211 | `$addToSet` leaves a list that holds the value unchanged, and otherwise appends the value |
| Order.Pull | src/controllers/playlist.controller.js:247-257 | After `$pull` the value is absent, every other entry is kept, and nothing new appears |
| Order.PullKeepsOrder | src/controllers/playlist.controller.js:247-257 | The entries left by `$pull` keep their relative order |
| Order.AddToSetKeepsDistinct | src/controllers/playlist.controller.js:201-211 | `$addToSet` on a list without duplicates gives a list without duplicates |
| Order.AddToSetIdempotent | src/controllers/playlist.controller.js:201-211 | Adding the same value twice is the same as adding it once |
| Order.PullAfterAddToSet | src/controllers/playlist.controller.js:201-257 | Pulling a value just added leaves the value absent |
| Order.PullAppend | src/controllers/playlist.controller.js:247-257 | Pulling distributes over concatenation |
| Order.PullOfAbsent | src/controllers/playlist.controller.js:247-257 | Pulling a value the list does not hold leaves the list unchanged |
| Order.AddThenPullRestores | src/controllers/playlist.controller.js:201-257 | Adding a value the list does not hold and pulling it again restores the list |
| Store.LikedImpliesCounted | src/controllers/video.controller.js:190-212 | If the requester liked the target, its like count is at least one |
| Store.DropLikesOn | src/controllers/comment.controller.js:186-188 | `deleteMany` of the likes on a target removes exactly those likes and keeps every other like |
| Store.DropLikesOnEffect | src/controllers/comment.controller.js:186-188 | After the likes on a target are dropped, it has no likes, and every other target has the same likes as before |
| Store.DropCommentsOn | src/controllers/video.controller.js:302-304 | `deleteMany` of a video's comments removes exactly those comments and keeps every other comment |
| Store.SubscribedImpliesCounted | src/controllers/video.controller.js:156-176 | A channel the requester follows has at least one subscriber |
| Store.CardOf | src/controllers/comment.controller.js:29-44 | The owner details are present exactly when the owner account exists, and then show that account's name and avatar |
| Cloudinary.Split | src/utils/cloudinary.js:24 | `split` gives at least one part and no part contains the separator |
| Cloudinary.JoinSplit | src/utils/cloudinary.js:24 | Joining the parts of a split gives back the string |
| Cloudinary.SplitJoin | src/utils/cloudinary.js:24 | Splitting a join of separator-free parts gives back the parts |
| Cloudinary.SplitFirst | src/utils/cloudinary.js:24 | The first part is the text before the first separator |
| Cloudinary.SplitLast | src/utils/cloudinary.js:24 | `pop()` of a split is a suffix of the string that is either the whole string or preceded by the separator |
| Cloudinary.LastSegment | src/utils/cloudinary.js:24 | The last "/"-segment of a URL contains no "/" and is the suffix after the last "/" (or the whole URL) |
| Cloudinary.PublicId | src/utils/cloudinary.js:24 | The public id contains no "/" and no ".", is a prefix of the last segment, and ends where that segment has its first "." |
| Cloudinary.PublicIdOfPlainName | src/utils/cloudinary.js:24 | A URL without "/" and "." is its own public id |
| Cloudinary.DeleteFromCloudinary | src/utils/cloudinary.js:21-33 | Nothing is sent exactly when the URL is falsy; otherwise the public id derived from the URL (`PublicId`) is destroyed with resource type "image", whatever the caller meant |
| Cloudinary.UploadOnCloudinary | src/utils/cloudinary.js:7-19 | A falsy path uploads nothing and gives null; otherwise the result is the host's answer, null on any failure |
| VideoController.SortStage | src/controllers/video.controller.js:42-54 | The direction is 1 exactly when both sort fields are given and `sortType` is "asc", and -1 otherwise; without both fields the sort is on `createdAt` descending |
| VideoController.GetAllVideosPipeline | src/controllers/video.controller.js:13-76 | Fails with 400 exactly when a given `userId` is invalid; otherwise the stages are: optional search, optional owner match, published match, sort, owner lookup, unwind |
| VideoController.PublishCheck | src/controllers/video.controller.js:93-111 | 400 for a blank title or description; 500 when the files part lacks a field; 400 without a files part; 400 for an empty video or thumbnail path; passes exactly when both fields pass and both paths are truthy |
| VideoController.PublishAVideo | src/controllers/video.controller.js:91-132 | The checks' status, then 500 for a failed upload or an owner id that cannot be stored; on success a fresh, unpublished video with no views, owned by the requester |
| VideoController.VideoViewConsistent | src/controllers/video.controller.js:156-213 | A video the requester liked shows at least one like, and an owner the requester follows shows at least one subscriber |
| VideoController.GetVideoById | src/controllers/video.controller.js:134-236 | 400, 400 and 500 for a bad video id, a bad requester id and a missing video, with no change; otherwise the view from the store before the call; views go up by exactly one; the video joins the requester's watch history without duplicates |
| VideoController.UpdateVideo | src/controllers/video.controller.js:238-277 | 500 for a malformed id; 401 for a missing video or one the requester does not own; 500 for missing text; 400 without a thumbnail; success replaces only title, description and thumbnail, and requests the old thumbnail's deletion |
| VideoController.DeleteVideo | src/controllers/video.controller.js:280-313 | 500 and 401 as in `updateVideo`; success removes the video, every like on it and every comment on it, and requests deletion of both files as "image" |
| VideoController.DeleteVideoCascade | src/controllers/video.controller.js:299-304 | After the cascade no like and no comment refers to the video; likes and comments on other targets are kept; likes on the removed comments stay behind |
| VideoController.TogglePublishStatus | src/controllers/video.controller.js:315-336 | 500 and 401 as in `deleteVideo`; success negates `isPublished` and changes nothing else |
| VideoController.TogglePublishTwice | src/controllers/video.controller.js:325-328 | Two toggles leave the videos as they were |
| PlaylistController.CreatePlaylist | src/controllers/playlist.controller.js:9-32 | 400 without a truthy name and description or with an invalid requester id; otherwise a new empty playlist owned by the requester |
| PlaylistController.JoinedVideos | src/controllers/playlist.controller.js:54-61 | The `$lookup` of a playlist's array yields each stored video it names exactly once, in natural order |
| PlaylistController.SumViewsBound | src/controllers/playlist.controller.js:63-70 | Every joined video's views are at most the total |
| PlaylistController.TotalsMeaning | src/controllers/playlist.controller.js:63-70 | `totalVideos` is the number of distinct stored videos the playlist names, and every such video's views are within `totalViews` |
| PlaylistController.Summaries | src/controllers/playlist.controller.js:62-82 | One summary per playlist id, in the same order, each with its name, description and totals |
| PlaylistController.OwnedIds | src/controllers/playlist.controller.js:48-53 | Exactly the playlists owned by the user, in natural order |
| PlaylistController.OwnedSummaries | src/controllers/playlist.controller.js:48-82 | The listing has one summary per owned playlist, in natural order |
| PlaylistController.GetUserPlaylists | src/controllers/playlist.controller.js:34-87 | 400 for a blank name; 500 when no user has the name; otherwise the summaries of exactly the playlists owned by the first user with that name |
| PlaylistController.GetPlaylistById | src/controllers/playlist.controller.js:89-175 | 400 for an invalid id and for a missing playlist; otherwise nothing when no joined video is published, and, when one is, the playlist's name and description with all its joined videos, totals and owner |
| PlaylistController.ListEditCheck | src/controllers/playlist.controller.js:177-199 | 400 for an invalid id; 404 for a missing playlist or video; 400 when the playlist has an owner and the video's owner is not the requester; passes exactly otherwise |
| PlaylistController.AddVideoToPlaylist | src/controllers/playlist.controller.js:177-221 | The checks' status with no change; on success the playlist's list becomes `$addToSet` of the video and nothing else changes |
| PlaylistController.RemoveVideoFromPlaylist | src/controllers/playlist.controller.js:223-266 | The same checks; on success the video is pulled from the list, the other entries keep their order, and nothing else changes |
| PlaylistController.AddVideoTwice | src/controllers/playlist.controller.js:201-211 | A second add answers and stores the same playlist as the first |
| PlaylistController.AddThenRemove | src/controllers/playlist.controller.js:177-266 | Adding a video the list lacks and removing it again restores the playlists, and the two succeed together |
| PlaylistController.DeletePlaylist | src/controllers/playlist.controller.js:268-285 | 400 for an invalid id; 500 for a missing playlist; 400 for a playlist the requester does not own; success removes only that playlist |
| PlaylistController.UpdatePlaylist | src/controllers/playlist.controller.js:287-316 | 500 when name or description is absent; 400 when one is empty; 400 for an invalid id; 404 for a missing playlist; 400 for a non-owner; success changes only name and description |
| UserController.GenerateAccessAndRefreshToken | src/controllers/user.controller.js:11-24 | Both tokens are issued for the user, and the user's stored refresh token is the one returned; 500 for a missing user |
| UserController.InsertKeepsUnique | src/controllers/user.controller.js:45-52 | Storing an account whose name and email are both new keeps usernames and emails unique |
| UserController.NewAccount | src/controllers/user.controller.js:45-52 | The stored account has the lower-cased name, the avatar URL, the cover image URL when the cover upload succeeded, and an empty cover image when it gave nothing |
| UserController.Registration | src/controllers/user.controller.js:26-52 | 400 for a blank field; 409 when a matching account exists; 404 without an avatar path; 500 for a missing avatar field, a missing cover-image field or a failed avatar upload; passes exactly when every check does, with the new account |
| UserController.Insert | src/controllers/user.controller.js:45-52 | The unique indexes refuse a repeated username or email with 500; otherwise the account is stored under a fresh id |
| UserController.RegisterUser | src/controllers/user.controller.js:26-58 | As written: the duplicate check uses the name as given, and an index clash on the lower-cased name gives 500 |
| UserController.CaseVariantPassesDuplicateCheck | src/controllers/user.controller.js:31-46 | A name that differs from a stored one only in case passes the duplicate check and still collides with the stored name |
| UserController.RegisterUserChecked | src/controllers/user.controller.js:26-58 | With the check on the lower-cased name, every collision is 409 and the store never refuses the account |
| UserController.LoginUser | src/controllers/user.controller.js:60-95 | 400 without a username and an email; 400 without a password; 404 when no account matches; 400 for a wrong password of the first matching account, storing nothing, and success exactly when that password is right; on success that account stores the refresh token it is given |
| UserController.LogoutUser | src/controllers/user.controller.js:97-110 | The requester's stored refresh token is removed and nothing else changes |
| UserController.RefreshCheck | src/controllers/user.controller.js:113-127 | Passes exactly for a present, signed refresh token of an existing user that equals the token the user holds; otherwise 401 |
| UserController.OnlyCurrentTokenAccepted | src/controllers/user.controller.js:124-126 | A token other than the stored one is refused |
| UserController.LoggedOutRejected | src/controllers/user.controller.js:98-104 | After logout, no refresh token of that user is accepted |
| UserController.RefreshAccessToken | src/controllers/user.controller.js:113-141 | 401 with no change when the check fails; otherwise new tokens, and the new refresh token replaces the stored one |
| UserController.RefreshTwice | src/controllers/user.controller.js:113-141 | Presenting the same refresh token again after it was rotated is refused with 401 |
| UserController.ChangeCurrentPassword | src/controllers/user.controller.js:143-158 | 500 for a missing requester; 400 for a wrong old password, keeping the password; otherwise only the password changes |
| UserController.UpdateAccountDetails | src/controllers/user.controller.js:166-185 | 400 unless both fields are truthy; no user for a missing requester; 500 for an email another account holds; otherwise only display name and email change |
| CommentController.CommentIds | src/controllers/comment.controller.js:17-27 | Exactly the comments on the video, newest first |
| CommentController.CommentViews | src/controllers/comment.controller.js:28-68 | One view per comment, in order, with its like count, whether the requester liked it, and its owner details |
| CommentController.GetVideoComments | src/controllers/comment.controller.js:9-103 | 400 exactly for an invalid video id; otherwise the views of that video's comments, newest first |
| CommentController.ListedLikesConsistent | src/controllers/comment.controller.js:46-64 | A listed comment the requester liked shows at least one like |
| CommentController.AddComment | src/controllers/comment.controller.js:106-131 | 400 for an invalid video id, missing content or an invalid requester id; otherwise a new comment by the requester on that video, whether or not the video exists |
| CommentController.AddThenList | src/controllers/comment.controller.js:106-131 | A comment just added is the first one the listing of its video shows |
| CommentController.UpdateComment | src/controllers/comment.controller.js:133-159 | 400 for a bad id, content or requester; 401 for a missing comment or one the requester does not own; success changes only the content |
| CommentController.DeleteComment | src/controllers/comment.controller.js:161-193 | 400 for a bad id; 500 for a missing comment; 401 for a non-owner, each with no change; success removes the comment and every like on it |
| CommentController.DeleteThenList | src/controllers/comment.controller.js:161-193 | After a delete the comment is not listed and has no likes, and every other target's likes are as before |
| TweetController.CreateTweet | src/controllers/tweet.controller.js:9-31 | 400 without content; 401 for an invalid requester id; otherwise a new tweet owned by the requester |
| TweetController.TweetIds | src/controllers/tweet.controller.js:44-49 | Exactly the tweets the user wrote, in natural order |
| TweetController.TweetViews | src/controllers/tweet.controller.js:50-95 | One view per tweet, in order, with its like count, whether the requester liked it, and its owner details |
| TweetController.GetUserTweets | src/controllers/tweet.controller.js:33-105 | 401 for a blank name; 500 when no user has it; otherwise the views of exactly the tweets of the first user with that name |
| TweetController.UpdateTweet | src/controllers/tweet.controller.js:107-139 | 400 without content or for an invalid id; 500 for a missing tweet; 401 for a non-owner; success changes only the content |
| TweetController.DeleteCheck | src/controllers/tweet.controller.js:142-155 | 400 for an invalid id; 500 for a missing tweet; 401 for a non-owner; passes exactly for the owner of an existing tweet |
| TweetController.DeleteTweet | src/controllers/tweet.controller.js:141-167 | As written: the checks' status with no change; on success every like on the tweet is removed and the tweet itself stays |
| TweetController.DeleteTweetThenList | src/controllers/tweet.controller.js:157-163 | After the delete succeeds, the tweet is still in its author's listing, with no likes |
| TweetController.DeleteTweetAwaited | src/controllers/tweet.controller.js:141-167 | Corrected: on success the tweet and every like on it are removed, and no user's listing shows the tweet |
| SubscriptionController.Toggle | src/controllers/subscription.controller.js:22-42 | Answers true exactly when no record for the pair exists; it then adds one record under a fresh id, and otherwise removes one record of the pair |
| SubscriptionController.ToggleReportsState | src/controllers/subscription.controller.js:22-42 | With at most one record for the pair, the answer is whether a record for the pair exists afterwards |
| SubscriptionController.ToggleKeepsOthers | src/controllers/subscription.controller.js:22-42 | Records of every other (subscriber, channel) pair are neither removed, changed nor added |
| SubscriptionController.ToggleKeepsUnique | src/controllers/subscription.controller.js:22-42 | A table with one record per pair still has one record per pair after a toggle |
| SubscriptionController.ToggleTwiceRestores | src/controllers/subscription.controller.js:22-42 | Two toggles of the same pair answer opposite values and restore who follows whom |
| SubscriptionController.ToggleSubscription | src/controllers/subscription.controller.js:9-44 | 400 for an empty name and for an unknown channel, with no change; 500 for a malformed requester id; otherwise the table changes as the toggle says, for the first user with that name |
| SubscriptionController.ToggleTwice | src/controllers/subscription.controller.js:9-44 | After two calls the second answers the opposite of the first, and who follows whom is as before |
| SubscriptionController.LatestVideo | src/controllers/subscription.controller.js:64-77 | The channel's most recently created video, and none exactly when it has no videos |
| SubscriptionController.SubscriptionIds | src/controllers/subscription.controller.js:51-56 | Exactly the requester's subscription records, in natural order |
| SubscriptionController.Entries | src/controllers/subscription.controller.js:57-84 | One entry per record whose channel account exists, in record order; listed channels are exactly the existing channels the records point at, each with its username, avatar and latest video |
| SubscriptionController.GetSubscribedChannels | src/controllers/subscription.controller.js:46-117 | 400 exactly for an invalid requester id; otherwise the entries for the requester's subscriptions |
| SubscriptionController.ListedChannelsFollowed | src/controllers/subscription.controller.js:46-84 | Every listed channel exists, is followed by the requester, and comes with its latest video |
| SubscriptionController.FollowedChannelsListed | src/controllers/subscription.controller.js:46-84 | Every existing channel the requester follows is listed |

## Left out

- Pagination: `aggregatePaginate` is a plugin that is not part of this model, so the listing handlers return the whole filtered and ordered list.
- The full-text `$search` stage: it appears only as a stage descriptor and is never run.
- `$project` reshaping and the HTTP response envelopes are left out; the model keeps only the fields the handlers compute.
- JWT signing, verification and expiry: a token is a record of kind, subject and issue stamp. The stamp is a parameter, not a clock.
- Password hashing and `isPasswordCorrect`: the model file is not part of this model, so a password is compared as stored.
- The Cloudinary network calls and the `fs.unlinkSync` of the local file: an upload is the host's answer, passed in as a parameter. A deletion is the request the helper would send.
- Uploads already made before a later check fails stay on the media host; the model does not record them.
- Express wiring, cookies other than the incoming refresh token, routes, the database connection and `console.log`.
- Concurrency: the check-then-act steps of the toggles and the multi-step cascades are modelled as running alone.
- `getCurrentUser`, `updateUserAvatar` and `updateUserCoverImage` are not part of this model.
- The error-object quirks are not modelled as messages. The undefined `apierror` in `updateVideo` is an uncaught exception (500). `ApiError` given a message as its status in `deleteVideo` only affects a status text the handler never reaches. `ApiError` used as the success envelope of `getVideoComments` is taken as a success.
- Common.ToLower: maps ASCII letters only; the Unicode case mapping of `toLowerCase` beyond ASCII is not modelled.
- Common.Trim: the model does not state which infix of the input the trimmed string is, only its ends and when it is empty.
- Query semantics are assumptions, not code that can be read here. `findOne(id)` and `findOneAndUpdate(id, …)` are taken as lookups by `_id`. A query field whose value is absent from the body is taken to match nothing. Username and email are taken to have unique indexes, which refuse a repeated value with an exception (500).
- The requester id of the user handlers comes from the authentication middleware and is taken to be well formed. The other controllers treat it as a possibly malformed parameter.
- UserController.RegisterUser: body fields that are absent where the source calls `.trim()` on them (a TypeError, 500) are not modelled; the registration fields are strings.
- UserController.ChangeCurrentPassword: the old and new passwords are taken to be present strings; an absent one, handed to the password comparison, is not modelled.
- VideoController.PublishAVideo: the Video schema is not part of this model. The model takes it that an absent title or description is stored as absent, and that `views` starts at 0.
- The User schema is not part of this model. The first "## Findings" row assumes that it declares no `lowercase` setter on `username`; such a setter would also apply to the query filter and make the duplicate check case-insensitive.
- Order.Descending and CommentController.CommentIds: `createdAt` order is represented by the strictly increasing document ids, so two comments never tie on their creation time.

## Findings

| source | as written | input that shows it | evidently intended | confidence | as-written member | corrected member |
|---|---|---|---|---|---|---|
| src/controllers/user.controller.js:31-46 | The duplicate check looks up the username as given, but the account is stored under the lower-cased name | An account "alice" exists and a new registration uses "Alice" with a new email: the check passes, and the unique index then refuses the insert with 500 | A name that collides once lower-cased is reported as 409 | not executed; assumes the User schema declares no `lowercase` setter on `username` (see "## Left out") | UserController.RegisterUser, UserController.CaseVariantPassesDuplicateCheck | UserController.RegisterUserChecked |
| src/controllers/tweet.controller.js:157 | `Tweet.findByIdAndDelete` is neither awaited nor executed, so the query never runs and its null check never fires | The owner deletes their tweet: the answer is success and the likes are gone, yet the tweet is still listed, with no likes | The tweet is removed along with its likes | not executed | TweetController.DeleteTweet, TweetController.DeleteTweetThenList | TweetController.DeleteTweetAwaited |
