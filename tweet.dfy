/** The tweet handlers: create, the per-user listing with like counts, edit
    and delete. */
module TweetController {
  import opened Common
  import opened Order
  import opened Store

  /** `createTweet`: 400 without content, 401 for an invalid requester id;
      otherwise a tweet owned by the requester. */
  method CreateTweet(db: Db, me: IdParam, content: Option<string>) returns (r: Outcome<Id>)
    requires db.Valid()
    modifies db`tweets, db`nextId
    ensures db.Valid()
    ensures !Truthy(content) ==> r == Err(BadRequest)
    ensures Truthy(content) && !IsValidObjectId(me) ==> r == Err(Unauthorized)
    ensures r.Err? ==> unchanged(db)
    ensures r.Ok? <==> Truthy(content) && IsValidObjectId(me)
    ensures r.Ok? ==>
      && r.value == old(db.nextId) && db.nextId == r.value + 1 && r.value !in old(db.tweets)
      && db.tweets == old(db.tweets)[r.value := Tweet(content.value, me.id)]
  {
    if !Truthy(content) {
      return Err(BadRequest);
    }
    if !IsValidObjectId(me) {
      return Err(Unauthorized);
    }
    var id := db.NewId();
    db.tweets := db.tweets[id := Tweet(content.value, me.id)];
    return Ok(id);
  }

  /** A tweet as the listing shows it. */
  datatype TweetView = TweetView(id: Id, content: string, likesCount: nat, isLiked: bool,
                                 ownerDetails: Option<UserCard>)

  /** The tweets `owner` wrote, in natural order. */
  function TweetIds(db: Db, owner: Id): (ids: seq<Id>)
    reads db
    requires db.Valid()
    ensures forall k :: k in ids <==> k in db.tweets && db.tweets[k].owner == owner
    ensures Increasing(ids)
  {
    var written := set k | k in db.tweets && db.tweets[k].owner == owner;
    assert forall k :: k in written ==> k < db.nextId;
    Ascending(written, 0, db.nextId)
  }

  function TweetViews(db: Db, ids: seq<Id>, me: IdParam): (r: seq<TweetView>)
    reads db
    requires forall k :: k in ids ==> k in db.tweets
    ensures |r| == |ids|
    ensures forall i :: 0 <= i < |ids| ==>
      && r[i].id == ids[i] && r[i].content == db.tweets[ids[i]].content
      && r[i].likesCount == LikesCount(db.likes, OnTweet(ids[i]))
      && r[i].isLiked == IsLikedBy(db.likes, OnTweet(ids[i]), me)
      && r[i].ownerDetails == CardOf(db.users, db.tweets[ids[i]].owner)
  {
    if ids == [] then []
    else
      var t := db.tweets[ids[0]];
      [TweetView(ids[0], t.content, LikesCount(db.likes, OnTweet(ids[0])),
                 IsLikedBy(db.likes, OnTweet(ids[0]), me), CardOf(db.users, t.owner))]
      + TweetViews(db, ids[1..], me)
  }

  /** `getUserTweets`: a blank name is rejected with 401; the first user with
      that exact name is looked up (500 when there is none) and that user's
      tweets are listed with their like counts. */
  function GetUserTweets(db: Db, username: string, me: IdParam): (r: Outcome<seq<TweetView>>)
    reads db
    requires db.Valid()
    ensures Trim(username) == "" ==> r == Err(Unauthorized)
    ensures Trim(username) != "" && UsersNamed(db.users, username) == {} ==> r == Err(ServerError)
    ensures r.Ok? <==> Trim(username) != "" && UsersNamed(db.users, username) != {}
    ensures r.Ok? ==>
      exists owner :: owner in UsersNamed(db.users, username)
        && (forall u :: u in UsersNamed(db.users, username) ==> owner <= u)
        && r.value == TweetViews(db, TweetIds(db, owner), me)
  {
    if Trim(username) == "" then Err(Unauthorized)
    else
      var named := UsersNamed(db.users, username);
      FirstOfBounded(named, db.nextId);
      var user := First(named, db.nextId);
      if user.None? then Err(ServerError)
      else Ok(TweetViews(db, TweetIds(db, user.value), me))
  }

  /** The requester wrote the tweet. */
  predicate OwnsTweet(tweets: map<Id, Tweet>, id: Id, me: IdParam) {
    id in tweets && SameId(tweets[id].owner, me)
  }

  /** `updateTweet`: 400 without content, 400 for an invalid id, 500 for a
      missing tweet, 401 for someone else's; otherwise only its content
      changes. */
  method UpdateTweet(db: Db, tweetId: IdParam, me: IdParam, content: Option<string>) returns (r: Outcome<Tweet>)
    requires db.Valid()
    modifies db`tweets
    ensures db.Valid()
    ensures !Truthy(content) || !IsValidObjectId(tweetId) ==> r == Err(BadRequest)
    ensures (Truthy(content) && IsValidObjectId(tweetId) && tweetId.id !in old(db.tweets)) ==> r == Err(ServerError)
    ensures (Truthy(content) && IsValidObjectId(tweetId) && tweetId.id in old(db.tweets)
             && !OwnsTweet(old(db.tweets), tweetId.id, me)) ==> r == Err(Unauthorized)
    ensures r.Err? ==> unchanged(db)
    ensures r.Ok? <==> Truthy(content) && IsValidObjectId(tweetId) && OwnsTweet(old(db.tweets), tweetId.id, me)
    ensures r.Ok? ==>
      && r.value == Tweet(content.value, old(db.tweets)[tweetId.id].owner)
      && db.tweets == old(db.tweets)[tweetId.id := r.value]
  {
    if !Truthy(content) || !IsValidObjectId(tweetId) {
      return Err(BadRequest);
    }
    if tweetId.id !in db.tweets {
      return Err(ServerError);
    }
    if !OwnsTweet(db.tweets, tweetId.id, me) {
      return Err(Unauthorized);
    }
    var updated := db.tweets[tweetId.id].(content := content.value);
    db.tweets := db.tweets[tweetId.id := updated];
    return Ok(updated);
  }

  /** The checks `deleteTweet` makes, in order: 400 for an invalid id, 500 for
      a missing tweet, 401 for someone else's. */
  function DeleteCheck(tweets: map<Id, Tweet>, tweetId: IdParam, me: IdParam): (status: Option<int>)
    ensures status.None? <==> IsValidObjectId(tweetId) && OwnsTweet(tweets, tweetId.id, me)
    ensures !IsValidObjectId(tweetId) ==> status == Some(BadRequest)
    ensures IsValidObjectId(tweetId) && tweetId.id !in tweets ==> status == Some(ServerError)
    ensures (IsValidObjectId(tweetId) && tweetId.id in tweets && !OwnsTweet(tweets, tweetId.id, me))
            ==> status == Some(Unauthorized)
  {
    if !IsValidObjectId(tweetId) then Some(BadRequest)
    else if tweetId.id !in tweets then Some(ServerError)
    else if !OwnsTweet(tweets, tweetId.id, me) then Some(Unauthorized)
    else None
  }

  /** `deleteTweet` as written. The removal query is built but never awaited,
      so it never runs: the handler answers success, every like on the tweet
      is gone, and the tweet itself stays. */
  method DeleteTweet(db: Db, tweetId: IdParam, me: IdParam) returns (r: Outcome<()>)
    requires db.Valid()
    modifies db`likes
    ensures db.Valid()
    ensures r.Err? <==> old(DeleteCheck(db.tweets, tweetId, me)).Some?
    ensures r.Err? ==> r.status == old(DeleteCheck(db.tweets, tweetId, me)).value && unchanged(db)
    ensures r.Ok? ==> db.likes == DropLikesOn(old(db.likes), OnTweet(tweetId.id))
    ensures r.Ok? ==> tweetId.id in db.tweets
  {
    var status := DeleteCheck(db.tweets, tweetId, me);
    if status.Some? {
      return Err(status.value);
    }
    db.likes := DropLikesOn(db.likes, OnTweet(tweetId.id));
    return Ok(());
  }

  /** After the as-written delete answers success, the tweet is still among
      its author's tweets, now shown with no likes. */
  method DeleteTweetThenList(db: Db, tweetId: IdParam, me: IdParam)
    returns (deleted: Outcome<()>, listing: seq<TweetView>)
    requires db.Valid()
    requires IsValidObjectId(me)
    modifies db`likes
    ensures db.Valid()
    ensures deleted.Ok? ==>
      tweetId.ObjectId? && exists i :: 0 <= i < |listing| && listing[i].id == tweetId.id && listing[i].likesCount == 0
  {
    deleted := DeleteTweet(db, tweetId, me);
    var ids := TweetIds(db, me.id);
    listing := TweetViews(db, ids, me);
    if deleted.Ok? {
      DropLikesOnEffect(old(db.likes), OnTweet(tweetId.id));
      assert tweetId.id in ids;
      var i :| 0 <= i < |ids| && ids[i] == tweetId.id;
      assert listing[i].id == tweetId.id;
    }
  }

  /** `deleteTweet` with the removal awaited: the tweet and every like on it
      go, and the author's listing no longer shows it. */
  method DeleteTweetAwaited(db: Db, tweetId: IdParam, me: IdParam) returns (r: Outcome<()>)
    requires db.Valid()
    modifies db`tweets, db`likes
    ensures db.Valid()
    ensures r.Err? <==> old(DeleteCheck(db.tweets, tweetId, me)).Some?
    ensures r.Err? ==> r.status == old(DeleteCheck(db.tweets, tweetId, me)).value && unchanged(db)
    ensures r.Ok? ==>
      && db.tweets == old(db.tweets) - {tweetId.id}
      && db.likes == DropLikesOn(old(db.likes), OnTweet(tweetId.id))
    ensures r.Ok? ==> forall owner :: tweetId.id !in TweetIds(db, owner)
  {
    var status := DeleteCheck(db.tweets, tweetId, me);
    if status.Some? {
      return Err(status.value);
    }
    db.tweets := db.tweets - {tweetId.id};
    db.likes := DropLikesOn(db.likes, OnTweet(tweetId.id));
    return Ok(());
  }
}
