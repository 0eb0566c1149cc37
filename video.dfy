/** The video handlers: the stage list of the listing query, upload,
    fetch-by-id with its derived fields and side effects, edit, delete with
    its cascade, and the publish toggle. */
module VideoController {
  import opened Common
  import opened Order
  import opened Store
  import opened Cloudinary

  /** The stages the listing handler hands to the aggregation, as
      descriptions; the aggregation itself is not modelled. */
  datatype Stage =
    | Search(query: string)
    | MatchOwner(owner: Id)
    | MatchPublished
    | SortBy(field: string, direction: int)
    | LookupOwner
    | UnwindOwner

  /** The sort stage: ascending exactly when `sortType` is "asc", and
      `createdAt` descending unless both `sortBy` and `sortType` are given. */
  function SortStage(sortBy: Option<string>, sortType: Option<string>): (st: Stage)
    ensures st.SortBy? && (st.direction == 1 || st.direction == -1)
    ensures st.direction == 1 <==> Truthy(sortBy) && Truthy(sortType) && sortType.value == "asc"
    ensures Truthy(sortBy) && Truthy(sortType) ==> st.field == sortBy.value
    ensures !(Truthy(sortBy) && Truthy(sortType)) ==> st == SortBy("createdAt", -1)
  {
    if Truthy(sortBy) && Truthy(sortType) then
      SortBy(sortBy.value, if sortType.value == "asc" then 1 else -1)
    else SortBy("createdAt", -1)
  }

  /** The number of optional stages that come before the fixed tail. */
  function LeadCount(query: Option<string>, userId: Option<IdParam>): nat {
    (if Truthy(query) then 1 else 0) + (if PresentId(userId) then 1 else 0)
  }

  /** `getAllVideos` up to the aggregation: a present but invalid `userId`
      is rejected with 400; otherwise the stages are the optional text
      search, the optional owner match, then the published match, the sort,
      the owner lookup and the unwind, in that order. */
  method GetAllVideosPipeline(query: Option<string>, sortBy: Option<string>, sortType: Option<string>,
                              userId: Option<IdParam>)
    returns (r: Outcome<seq<Stage>>)
    ensures r.Err? <==> PresentId(userId) && !IsValidObjectId(userId.value)
    ensures r.Err? ==> r.status == BadRequest
    ensures r.Ok? ==>
      var p, lead := r.value, LeadCount(query, userId);
      && |p| == lead + 4
      && p[lead..] == [MatchPublished, SortStage(sortBy, sortType), LookupOwner, UnwindOwner]
      && (Truthy(query) ==> p[0] == Search(query.value))
      && (!Truthy(query) ==> forall i :: 0 <= i < |p| ==> !p[i].Search?)
      && (PresentId(userId) ==> p[lead - 1] == MatchOwner(userId.value.id))
      && (forall i :: 0 <= i < lead ==> p[i].Search? || p[i].MatchOwner?)
  {
    var pipeline: seq<Stage> := [];
    if Truthy(query) {
      pipeline := pipeline + [Search(query.value)];
    }
    if PresentId(userId) {
      if !IsValidObjectId(userId.value) {
        return Err(BadRequest);
      }
      pipeline := pipeline + [MatchOwner(userId.value.id)];
    }
    pipeline := pipeline + [MatchPublished];
    pipeline := pipeline + [SortStage(sortBy, sortType)];
    pipeline := pipeline + [LookupOwner, UnwindOwner];
    return Ok(pipeline);
  }

  /** `x?.trim() === ""`: present and blank. An absent field passes. */
  predicate BlankIfPresent(x: Option<string>) {
    x.Some? && Trim(x.value) == ""
  }

  /** The uploaded files of a multipart request (`req.files`), by field. */
  datatype VideoFiles = VideoFiles(videoFile: Option<string>, thumbnail: Option<string>)

  /** The request checks `publishAVideo` makes before uploading, in order:
      400 for a blank title or description, 500 when the files part lacks a
      field (indexing `[0]` of undefined throws), 400 when there is no video
      or thumbnail path. */
  function PublishCheck(title: Option<string>, description: Option<string>, files: Option<VideoFiles>): (status: Option<int>)
    ensures BlankIfPresent(title) || BlankIfPresent(description) ==> status == Some(BadRequest)
    ensures (!BlankIfPresent(title) && !BlankIfPresent(description) && files.Some?
             && (files.value.videoFile.None? || files.value.thumbnail.None?)) ==> status == Some(ServerError)
    ensures !BlankIfPresent(title) && !BlankIfPresent(description) && files.None? ==> status == Some(BadRequest)
    ensures (!BlankIfPresent(title) && !BlankIfPresent(description) && files.Some?
             && files.value.videoFile.Some? && files.value.thumbnail.Some?
             && (!Truthy(files.value.videoFile) || !Truthy(files.value.thumbnail))) ==> status == Some(BadRequest)
    ensures status.None? <==>
      && !BlankIfPresent(title) && !BlankIfPresent(description)
      && files.Some? && Truthy(files.value.videoFile) && Truthy(files.value.thumbnail)
  {
    if BlankIfPresent(title) || BlankIfPresent(description) then Some(BadRequest)
    else if files.None? then Some(BadRequest)
    else if files.value.videoFile.None? || files.value.thumbnail.None? then Some(ServerError)
    else if !Truthy(files.value.videoFile) || !Truthy(files.value.thumbnail) then Some(BadRequest)
    else None
  }

  /** `publishAVideo`. `videoReply` and `thumbnailReply` are what the media
      host answers to the two uploads. After the request checks, a failed
      upload or a requester id the owner field cannot hold gives 500;
      otherwise a new unpublished video owned by the requester, with no
      views, is stored. */
  method PublishAVideo(db: Db, me: IdParam, title: Option<string>, description: Option<string>,
                       files: Option<VideoFiles>, videoReply: Option<Upload>, thumbnailReply: Option<Upload>)
    returns (r: Outcome<Id>)
    requires db.Valid()
    modifies db`videos, db`nextId
    ensures db.Valid()
    ensures PublishCheck(title, description, files).Some? ==> r == Err(PublishCheck(title, description, files).value)
    ensures (PublishCheck(title, description, files).None?
             && (videoReply.None? || thumbnailReply.None? || !IsValidObjectId(me))) ==> r == Err(ServerError)
    ensures r.Err? ==> unchanged(db)
    ensures r.Ok? <==>
      PublishCheck(title, description, files).None? && videoReply.Some? && thumbnailReply.Some? && IsValidObjectId(me)
    ensures r.Ok? ==>
      && videoReply.Some? && thumbnailReply.Some? && me.ObjectId?
      && r.value == old(db.nextId) && db.nextId == r.value + 1 && r.value !in old(db.videos)
      && db.videos == old(db.videos)[r.value := Video(title, description, videoReply.value.url,
                                                        thumbnailReply.value.url, videoReply.value.duration,
                                                        0, false, me.id)]
  {
    var status := PublishCheck(title, description, files);
    if status.Some? {
      return Err(status.value);
    }
    var videoUpload := UploadOnCloudinary(files.value.videoFile, videoReply);
    var thumbnailUpload := UploadOnCloudinary(files.value.thumbnail, thumbnailReply);
    if videoUpload.None? || thumbnailUpload.None? {
      return Err(ServerError);
    }
    // The owner field cannot hold a requester id that is not an ObjectId.
    if !IsValidObjectId(me) {
      return Err(ServerError);
    }
    var id := db.NewId();
    db.videos := db.videos[id := Video(title, description, videoUpload.value.url, thumbnailUpload.value.url,
                                       videoUpload.value.duration, 0, false, me.id)];
    return Ok(id);
  }

  /** The owner as the fetch-by-id pipeline shows it. */
  datatype OwnerView = OwnerView(username: string, avatar: string, subscribersCount: nat, isSubscribed: bool)

  /** A fetched video with its derived fields. */
  datatype VideoView = VideoView(id: Id, video: Video, owner: Option<OwnerView>, likesCount: nat, isLiked: bool)

  function OwnerViewOf(users: map<Id, User>, subs: map<Id, Subscription>, owner: Id, me: IdParam): Option<OwnerView> {
    if owner in users then
      Some(OwnerView(users[owner].username, users[owner].avatar,
                     |SubscribersOf(subs, owner)|, IsSubscribedBy(subs, owner, me)))
    else None
  }

  /** The derived fields of a fetched video, computed from the store as it
      is before the view count goes up. */
  function VideoViewOf(users: map<Id, User>, likes: map<Id, Like>, subs: map<Id, Subscription>,
                       id: Id, v: Video, me: IdParam): VideoView
  {
    VideoView(id, v, OwnerViewOf(users, subs, v.owner, me), LikesCount(likes, OnVideo(id)),
              IsLikedBy(likes, OnVideo(id), me))
  }

  /** A video the requester liked shows at least one like, and an owner the
      requester follows shows at least one subscriber. */
  lemma {:induction false} VideoViewConsistent(users: map<Id, User>, likes: map<Id, Like>,
                                               subs: map<Id, Subscription>, id: Id, v: Video, me: IdParam)
    ensures var view := VideoViewOf(users, likes, subs, id, v, me);
            && (view.isLiked ==> view.likesCount >= 1)
            && (view.owner.Some? && view.owner.value.isSubscribed ==> view.owner.value.subscribersCount >= 1)
  {
    if IsLikedBy(likes, OnVideo(id), me) {
      LikedImpliesCounted(likes, OnVideo(id), me);
    }
    if v.owner in users && IsSubscribedBy(subs, v.owner, me) {
      SubscribedImpliesCounted(subs, v.owner, me);
    }
  }

  /** `getVideoById`: checks both ids, answers the video with its derived
      fields, then counts one view and records the video in the requester's
      watch history (once). A missing video is reported as 500. */
  method GetVideoById(db: Db, videoId: IdParam, me: IdParam) returns (r: Outcome<VideoView>)
    requires db.Valid()
    modifies db`videos, db`users
    ensures db.Valid()
    ensures !IsValidObjectId(videoId) ==> r == Err(BadRequest)
    ensures IsValidObjectId(videoId) && !IsValidObjectId(me) ==> r == Err(BadRequest)
    ensures IsValidObjectId(videoId) && IsValidObjectId(me) && videoId.id !in old(db.videos) ==> r == Err(ServerError)
    ensures r.Err? ==> unchanged(db)
    ensures r.Ok? ==>
      var id, v := videoId.id, old(db.videos)[videoId.id];
      && IsValidObjectId(videoId) && IsValidObjectId(me) && id in old(db.videos)
      && r.value == VideoViewOf(old(db.users), old(db.likes), old(db.subscriptions), id, v, me)
      && db.videos == old(db.videos)[id := v.(views := v.views + 1)]
      && (me.id in old(db.users) ==>
            var u := old(db.users)[me.id];
            db.users == old(db.users)[me.id := u.(watchHistory := AddToSet(u.watchHistory, id))])
      && (me.id !in old(db.users) ==> db.users == old(db.users))
    ensures IsValidObjectId(videoId) && IsValidObjectId(me) && videoId.id in old(db.videos) ==> r.Ok?
  {
    if !IsValidObjectId(videoId) {
      return Err(BadRequest);
    }
    if !IsValidObjectId(me) {
      return Err(BadRequest);
    }
    var id := videoId.id;
    if id !in db.videos {
      return Err(ServerError);
    }
    var v := db.videos[id];
    r := Ok(VideoViewOf(db.users, db.likes, db.subscriptions, id, v, me));
    db.videos := db.videos[id := v.(views := v.views + 1)];
    if me.id in db.users {
      var u := db.users[me.id];
      db.users := db.users[me.id := u.(watchHistory := AddToSet(u.watchHistory, id))];
    }
  }

  /** `video?.owner.toString() !== req.user?._id.toString()` fails: the
      video exists and belongs to the requester. */
  predicate OwnsVideo(videos: map<Id, Video>, id: Id, me: IdParam) {
    id in videos && SameId(videos[id].owner, me)
  }

  /** `updateVideo`. A malformed id makes `findById` throw (500); a missing
      video or another owner gives 401; a missing title or description hits
      an undefined error constructor (500); the new thumbnail is required. On
      success the three fields change and the old thumbnail is deleted from
      the media host. */
  method UpdateVideo(db: Db, videoId: IdParam, me: IdParam, title: Option<string>, description: Option<string>,
                     thumbnailPath: Option<string>, thumbnailReply: Option<Upload>)
    returns (r: Outcome<Video>, destroyed: Option<Destroy>)
    requires db.Valid()
    modifies db`videos
    ensures db.Valid()
    ensures !IsValidObjectId(videoId) ==> r == Err(ServerError)
    ensures IsValidObjectId(videoId) && !OwnsVideo(old(db.videos), videoId.id, me) ==> r == Err(Unauthorized)
    ensures (IsValidObjectId(videoId) && OwnsVideo(old(db.videos), videoId.id, me)
             && !(Truthy(title) && Truthy(description))) ==> r == Err(ServerError)
    ensures (IsValidObjectId(videoId) && OwnsVideo(old(db.videos), videoId.id, me)
             && Truthy(title) && Truthy(description) && !Truthy(thumbnailPath)) ==> r == Err(BadRequest)
    ensures (IsValidObjectId(videoId) && OwnsVideo(old(db.videos), videoId.id, me)
             && Truthy(title) && Truthy(description) && Truthy(thumbnailPath)) ==> (r.Ok? <==> thumbnailReply.Some?)
    ensures r.Err? ==> unchanged(db) && destroyed.None?
    ensures r.Ok? ==>
      var id, v := videoId.id, old(db.videos)[videoId.id];
      && IsValidObjectId(videoId) && OwnsVideo(old(db.videos), id, me)
      && Truthy(title) && Truthy(description) && Truthy(thumbnailPath) && thumbnailReply.Some?
      && r.value == v.(thumbnail := thumbnailReply.value.url, title := title, description := description)
      && db.videos == old(db.videos)[id := r.value]
      && destroyed == DeleteFromCloudinary(Some(v.thumbnail))
  {
    destroyed := None;
    if !IsValidObjectId(videoId) {
      return Err(ServerError), None;
    }
    var id := videoId.id;
    if !OwnsVideo(db.videos, id, me) {
      return Err(Unauthorized), None;
    }
    if !(Truthy(title) && Truthy(description)) {
      return Err(ServerError), None;
    }
    if !Truthy(thumbnailPath) {
      return Err(BadRequest), None;
    }
    var upload := UploadOnCloudinary(thumbnailPath, thumbnailReply);
    if upload.None? {
      // `thumbnailCloudinary.url` on null throws.
      return Err(ServerError), None;
    }
    var v := db.videos[id];
    var updated := v.(thumbnail := upload.value.url, title := title, description := description);
    destroyed := DeleteFromCloudinary(Some(v.thumbnail));
    db.videos := db.videos[id := updated];
    return Ok(updated), destroyed;
  }

  /** The deletion requests actually sent. */
  function Sent(d: Option<Destroy>): seq<Destroy> {
    if d.Some? then [d.value] else []
  }

  /** `deleteVideo`. On success the video, every like on it and every
      comment on it are gone, and both of its media files are deleted from
      the media host, each as an "image". */
  method DeleteVideo(db: Db, videoId: IdParam, me: IdParam) returns (r: Outcome<()>, destroyed: seq<Destroy>)
    requires db.Valid()
    modifies db`videos, db`likes, db`comments
    ensures db.Valid()
    ensures !IsValidObjectId(videoId) ==> r == Err(ServerError)
    ensures IsValidObjectId(videoId) && !OwnsVideo(old(db.videos), videoId.id, me) ==> r == Err(Unauthorized)
    ensures r.Err? ==> unchanged(db) && destroyed == []
    ensures IsValidObjectId(videoId) && OwnsVideo(old(db.videos), videoId.id, me) ==> r.Ok?
    ensures r.Ok? ==>
      var id, v := videoId.id, old(db.videos)[videoId.id];
      && IsValidObjectId(videoId) && OwnsVideo(old(db.videos), id, me)
      && db.videos == old(db.videos) - {id}
      && db.likes == DropLikesOn(old(db.likes), OnVideo(id))
      && db.comments == DropCommentsOn(old(db.comments), id)
      && destroyed == Sent(DeleteFromCloudinary(Some(v.videoFile))) + Sent(DeleteFromCloudinary(Some(v.thumbnail)))
  {
    if !IsValidObjectId(videoId) {
      return Err(ServerError), [];
    }
    var id := videoId.id;
    if !OwnsVideo(db.videos, id, me) {
      return Err(Unauthorized), [];
    }
    var v := db.videos[id];
    db.videos := db.videos - {id};
    db.likes := DropLikesOn(db.likes, OnVideo(id));
    db.comments := DropCommentsOn(db.comments, id);
    destroyed := Sent(DeleteFromCloudinary(Some(v.videoFile))) + Sent(DeleteFromCloudinary(Some(v.thumbnail)));
    return Ok(()), destroyed;
  }

  /** After a successful delete nothing refers to the video any more through
      a like or a comment, while likes and comments on anything else are
      untouched. Likes on the removed comments are not part of the cascade
      and stay behind. */
  lemma {:induction false} DeleteVideoCascade(likes: map<Id, Like>, comments: map<Id, Comment>, id: Id)
    ensures LikesCount(DropLikesOn(likes, OnVideo(id)), OnVideo(id)) == 0
    ensures forall k :: k in DropCommentsOn(comments, id) ==> DropCommentsOn(comments, id)[k].video != id
    ensures forall u :: u != OnVideo(id) ==> LikesOn(DropLikesOn(likes, OnVideo(id)), u) == LikesOn(likes, u)
    ensures forall k :: k in comments && comments[k].video != id ==> k in DropCommentsOn(comments, id)
    ensures forall c :: c in comments && comments[c].video == id ==>
              c !in DropCommentsOn(comments, id)
              && LikesOn(DropLikesOn(likes, OnVideo(id)), OnComment(c)) == LikesOn(likes, OnComment(c))
  {
    DropLikesOnEffect(likes, OnVideo(id));
  }

  /** `togglePublishStatus`: the same checks as `deleteVideo`, then only the
      publish flag of that one video is negated. */
  method TogglePublishStatus(db: Db, videoId: IdParam, me: IdParam) returns (r: Outcome<Video>)
    requires db.Valid()
    modifies db`videos
    ensures db.Valid()
    ensures !IsValidObjectId(videoId) ==> r == Err(ServerError)
    ensures IsValidObjectId(videoId) && !OwnsVideo(old(db.videos), videoId.id, me) ==> r == Err(Unauthorized)
    ensures r.Err? ==> unchanged(db)
    ensures IsValidObjectId(videoId) && OwnsVideo(old(db.videos), videoId.id, me) ==> r.Ok?
    ensures r.Ok? ==>
      var id, v := videoId.id, old(db.videos)[videoId.id];
      && IsValidObjectId(videoId) && OwnsVideo(old(db.videos), id, me)
      && r.value == v.(isPublished := !v.isPublished)
      && db.videos == old(db.videos)[id := r.value]
  {
    if !IsValidObjectId(videoId) {
      return Err(ServerError);
    }
    var id := videoId.id;
    if !OwnsVideo(db.videos, id, me) {
      return Err(Unauthorized);
    }
    var v := db.videos[id];
    var updated := v.(isPublished := !v.isPublished);
    db.videos := db.videos[id := updated];
    return Ok(updated);
  }

  /** Toggling twice: the second toggle succeeds whenever the first did, and
      together they restore every video as it was. */
  method TogglePublishTwice(db: Db, videoId: IdParam, me: IdParam) returns (first: Outcome<Video>, second: Outcome<Video>)
    requires db.Valid()
    modifies db`videos
    ensures db.Valid()
    ensures first.Ok? ==> second.Ok? && db.videos == old(db.videos)
    ensures first.Err? ==> second == first && db.videos == old(db.videos)
  {
    first := TogglePublishStatus(db, videoId, me);
    second := TogglePublishStatus(db, videoId, me);
    if first.Ok? {
      assert db.videos[videoId.id] == old(db.videos)[videoId.id];
      assert db.videos == old(db.videos);
    }
  }
}
