/** The comment handlers: the listing of a video's comments with their like
    counts, and adding, editing and deleting a comment. */
module CommentController {
  import opened Common
  import opened Order
  import opened Store

  /** A comment as the listing shows it. */
  datatype CommentView = CommentView(id: Id, content: string, likesCount: nat, isLiked: bool,
                                     ownerDetails: Option<UserCard>)

  /** The comments on `video`, newest first (ids are handed out in creation
      order, so a larger id is a later `createdAt`). */
  function CommentIds(db: Db, video: Id): (ids: seq<Id>)
    reads db
    requires db.Valid()
    ensures forall k :: k in ids <==> k in db.comments && db.comments[k].video == video
    ensures forall i, j :: 0 <= i < j < |ids| ==> ids[i] > ids[j]
  {
    var on := set k | k in db.comments && db.comments[k].video == video;
    assert forall k :: k in on ==> k < db.nextId;
    Descending(on, db.nextId)
  }

  function CommentViews(db: Db, ids: seq<Id>, me: IdParam): (r: seq<CommentView>)
    reads db
    requires forall k :: k in ids ==> k in db.comments
    ensures |r| == |ids|
    ensures forall i :: 0 <= i < |ids| ==>
      && r[i].id == ids[i] && r[i].content == db.comments[ids[i]].content
      && r[i].likesCount == LikesCount(db.likes, OnComment(ids[i]))
      && r[i].isLiked == IsLikedBy(db.likes, OnComment(ids[i]), me)
      && r[i].ownerDetails == CardOf(db.users, db.comments[ids[i]].owner)
  {
    if ids == [] then []
    else
      var c := db.comments[ids[0]];
      [CommentView(ids[0], c.content, LikesCount(db.likes, OnComment(ids[0])),
                   IsLikedBy(db.likes, OnComment(ids[0]), me), CardOf(db.users, c.owner))]
      + CommentViews(db, ids[1..], me)
  }

  /** `getVideoComments` up to the pagination: 400 for an invalid id;
      otherwise every comment on the video, newest first, with its like count
      and whether the requester liked it. */
  function GetVideoComments(db: Db, videoId: IdParam, me: IdParam): (r: Outcome<seq<CommentView>>)
    reads db
    requires db.Valid()
    ensures r.Err? <==> !IsValidObjectId(videoId)
    ensures r.Err? ==> r.status == BadRequest
    ensures r.Ok? ==> r.value == CommentViews(db, CommentIds(db, videoId.id), me)
  {
    if !IsValidObjectId(videoId) then Err(BadRequest)
    else Ok(CommentViews(db, CommentIds(db, videoId.id), me))
  }

  /** A listed comment that the requester liked shows at least one like. */
  lemma ListedLikesConsistent(db: Db, videoId: IdParam, me: IdParam, i: nat)
    requires db.Valid()
    requires GetVideoComments(db, videoId, me).Ok? && i < |GetVideoComments(db, videoId, me).value|
    ensures var v := GetVideoComments(db, videoId, me).value[i];
            v.isLiked ==> v.likesCount >= 1
  {
    var v := GetVideoComments(db, videoId, me).value[i];
    if v.isLiked {
      LikedImpliesCounted(db.likes, OnComment(v.id), me);
    }
  }

  /** `addComment`: 400 for an invalid video id, for missing content and for
      an invalid requester id; otherwise a comment by the requester on that
      video. Whether the video exists is not checked. */
  method AddComment(db: Db, videoId: IdParam, me: IdParam, content: Option<string>) returns (r: Outcome<Id>)
    requires db.Valid()
    modifies db`comments, db`nextId
    ensures db.Valid()
    ensures !IsValidObjectId(videoId) || !Truthy(content) || !IsValidObjectId(me) ==> r == Err(BadRequest)
    ensures r.Err? ==> unchanged(db)
    ensures r.Ok? <==> IsValidObjectId(videoId) && Truthy(content) && IsValidObjectId(me)
    ensures r.Ok? ==>
      && r.value == old(db.nextId) && db.nextId == r.value + 1 && r.value !in old(db.comments)
      && db.comments == old(db.comments)[r.value := Comment(content.value, videoId.id, me.id)]
  {
    if !IsValidObjectId(videoId) {
      return Err(BadRequest);
    }
    if !Truthy(content) {
      return Err(BadRequest);
    }
    if !IsValidObjectId(me) {
      return Err(BadRequest);
    }
    var id := db.NewId();
    db.comments := db.comments[id := Comment(content.value, videoId.id, me.id)];
    return Ok(id);
  }

  /** A comment just added is the first one the listing of its video shows. */
  method AddThenList(db: Db, videoId: IdParam, me: IdParam, content: Option<string>)
    returns (added: Outcome<Id>, listing: Outcome<seq<CommentView>>)
    requires db.Valid()
    modifies db`comments, db`nextId
    ensures db.Valid()
    ensures added.Ok? ==>
      && content.Some? && me.ObjectId? && listing.Ok? && |listing.value| >= 1
      && listing.value[0] == CommentView(added.value, content.value, LikesCount(db.likes, OnComment(added.value)),
                                         IsLikedBy(db.likes, OnComment(added.value), me), CardOf(db.users, me.id))
  {
    added := AddComment(db, videoId, me, content);
    listing := GetVideoComments(db, videoId, me);
    if added.Ok? {
      var ids := CommentIds(db, videoId.id);
      assert added.value in ids;
      forall i | 0 < i < |ids| ensures ids[i] < added.value {
        assert ids[0] > ids[i];
        assert ids[0] in db.comments;
      }
    }
  }

  /** The requester wrote the comment; a missing comment belongs to no one. */
  predicate OwnsComment(comments: map<Id, Comment>, id: Id, me: IdParam) {
    id in comments && SameId(comments[id].owner, me)
  }

  /** `updateComment`: 400 for an invalid comment id, missing content or an
      invalid requester id; 401 when the comment is missing or someone else's;
      otherwise only its content changes. */
  method UpdateComment(db: Db, commentId: IdParam, me: IdParam, content: Option<string>) returns (r: Outcome<Comment>)
    requires db.Valid()
    modifies db`comments
    ensures db.Valid()
    ensures !IsValidObjectId(commentId) || !Truthy(content) || !IsValidObjectId(me) ==> r == Err(BadRequest)
    ensures (IsValidObjectId(commentId) && Truthy(content) && IsValidObjectId(me)
             && !OwnsComment(old(db.comments), commentId.id, me)) ==> r == Err(Unauthorized)
    ensures r.Err? ==> unchanged(db)
    ensures r.Ok? <==> IsValidObjectId(commentId) && Truthy(content) && IsValidObjectId(me)
                       && OwnsComment(old(db.comments), commentId.id, me)
    ensures r.Ok? ==>
      && r.value == old(db.comments)[commentId.id].(content := content.value)
      && db.comments == old(db.comments)[commentId.id := r.value]
  {
    if !IsValidObjectId(commentId) || !Truthy(content) || !IsValidObjectId(me) {
      return Err(BadRequest);
    }
    if !OwnsComment(db.comments, commentId.id, me) {
      return Err(Unauthorized);
    }
    var updated := db.comments[commentId.id].(content := content.value);
    db.comments := db.comments[commentId.id := updated];
    return Ok(updated);
  }

  /** `deleteComment`: 400 for an invalid comment id or requester id, 500 for
      a missing comment, 401 for someone else's; otherwise the comment and
      every like on it go. */
  method DeleteComment(db: Db, commentId: IdParam, me: IdParam) returns (r: Outcome<()>)
    requires db.Valid()
    modifies db`comments, db`likes
    ensures db.Valid()
    ensures !IsValidObjectId(commentId) || !IsValidObjectId(me) ==> r == Err(BadRequest)
    ensures (IsValidObjectId(commentId) && IsValidObjectId(me) && commentId.id !in old(db.comments))
            ==> r == Err(ServerError)
    ensures (IsValidObjectId(commentId) && IsValidObjectId(me) && commentId.id in old(db.comments)
             && !OwnsComment(old(db.comments), commentId.id, me)) ==> r == Err(Unauthorized)
    ensures r.Err? ==> unchanged(db)
    ensures r.Ok? <==> IsValidObjectId(commentId) && IsValidObjectId(me) && OwnsComment(old(db.comments), commentId.id, me)
    ensures r.Ok? ==>
      && db.comments == old(db.comments) - {commentId.id}
      && db.likes == DropLikesOn(old(db.likes), OnComment(commentId.id))
  {
    if !IsValidObjectId(commentId) || !IsValidObjectId(me) {
      return Err(BadRequest);
    }
    if commentId.id !in db.comments {
      return Err(ServerError);
    }
    if !OwnsComment(db.comments, commentId.id, me) {
      return Err(Unauthorized);
    }
    db.comments := db.comments - {commentId.id};
    db.likes := DropLikesOn(db.likes, OnComment(commentId.id));
    return Ok(());
  }

  /** After a successful delete the comment is no longer listed and nothing
      likes it, while the likes of every other target are as they were. */
  method DeleteThenList(db: Db, commentId: IdParam, videoId: IdParam, me: IdParam)
    returns (deleted: Outcome<()>, listing: Outcome<seq<CommentView>>)
    requires db.Valid()
    modifies db`comments, db`likes
    ensures db.Valid()
    ensures deleted.Ok? ==>
      && commentId.ObjectId?
      && LikesCount(db.likes, OnComment(commentId.id)) == 0
      && (forall t :: t != OnComment(commentId.id) ==> LikesOn(db.likes, t) == LikesOn(old(db.likes), t))
      && (listing.Ok? ==> forall i :: 0 <= i < |listing.value| ==> listing.value[i].id != commentId.id)
  {
    deleted := DeleteComment(db, commentId, me);
    listing := GetVideoComments(db, videoId, me);
    if deleted.Ok? {
      DropLikesOnEffect(old(db.likes), OnComment(commentId.id));
      if listing.Ok? {
        var ids := CommentIds(db, videoId.id);
        assert forall i :: 0 <= i < |ids| ==> ids[i] in db.comments;
      }
    }
  }
}
