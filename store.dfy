/** The document store the handlers talk to through Mongoose: one map per
    collection from document id to document, and the counter that hands out
    fresh ids. Also the summaries that the aggregation pipelines compute
    over these collections (counts and "liked/subscribed by" flags). */
module Store {
  import opened Common

  datatype TokenKind = AccessToken | RefreshToken

  /** A signed token: what it is for, whose it is, and when it was issued. */
  datatype Jwt = Jwt(kind: TokenKind, subject: Id, issuedAt: nat)

  /** An account. `password` holds the credential as last set; hashing
      happens in the schema, which is not part of this model. */
  datatype User = User(
    username: string,
    email: string,
    fullName: string,
    avatar: string,
    coverImage: string,
    password: string,
    watchHistory: seq<Id>,
    refreshToken: Option<Jwt>)

  /** A video. Title and description are stored as the request gave them,
      absent fields included. */
  datatype Video = Video(
    title: Option<string>,
    description: Option<string>,
    videoFile: string,
    thumbnail: string,
    duration: real,
    views: nat,
    isPublished: bool,
    owner: Id)

  datatype Comment = Comment(content: string, video: Id, owner: Id)

  /** A like points at exactly one video, comment or tweet. */
  datatype LikeTarget = OnVideo(video: Id) | OnComment(comment: Id) | OnTweet(tweet: Id)

  datatype Like = Like(target: LikeTarget, likedBy: Id)

  datatype Tweet = Tweet(content: string, owner: Id)

  datatype Playlist = Playlist(name: string, description: string, owner: Option<Id>, videos: seq<Id>)

  datatype Subscription = Subscription(subscriber: Id, channel: Id)

  /** The user fields that the pipelines copy into their results. */
  datatype UserCard = UserCard(id: Id, username: string, fullName: string, avatar: string)

  predicate AllBelow(keys: set<Id>, n: nat) {
    forall k :: k in keys ==> k < n
  }

  class Db {
    var users: map<Id, User>
    var videos: map<Id, Video>
    var comments: map<Id, Comment>
    var likes: map<Id, Like>
    var tweets: map<Id, Tweet>
    var playlists: map<Id, Playlist>
    var subscriptions: map<Id, Subscription>
    /** The next id to hand out; every stored document has a smaller one. */
    var nextId: nat

    ghost predicate Valid()
      reads this
    {
      && AllBelow(users.Keys, nextId)
      && AllBelow(videos.Keys, nextId)
      && AllBelow(comments.Keys, nextId)
      && AllBelow(likes.Keys, nextId)
      && AllBelow(tweets.Keys, nextId)
      && AllBelow(playlists.Keys, nextId)
      && AllBelow(subscriptions.Keys, nextId)
    }

    constructor ()
      ensures Valid() && nextId == 0
      ensures users == map[] && videos == map[] && comments == map[] && likes == map[]
      ensures tweets == map[] && playlists == map[] && subscriptions == map[]
    {
      users, videos, comments, likes := map[], map[], map[], map[];
      tweets, playlists, subscriptions := map[], map[], map[];
      nextId := 0;
    }

    /** The id the store gives the next document it creates: used by no
        document yet, and larger than every id in use. */
    method NewId() returns (id: Id)
      requires Valid()
      modifies this`nextId
      ensures Valid()
      ensures id == old(nextId) && nextId == id + 1
      ensures id !in users && id !in videos && id !in comments && id !in likes
      ensures id !in tweets && id !in playlists && id !in subscriptions
    {
      id := nextId;
      nextId := nextId + 1;
    }
  }

  /** Ids of the likes a `$lookup` from `likes` on the target's id finds. */
  function LikesOn(likes: map<Id, Like>, t: LikeTarget): set<Id> {
    set k | k in likes && likes[k].target == t
  }

  /** `likesCount`: the `$size` of that lookup. */
  function LikesCount(likes: map<Id, Like>, t: LikeTarget): nat {
    |LikesOn(likes, t)|
  }

  /** `isLiked`: the requester is among the `likedBy` of those likes. */
  predicate IsLikedBy(likes: map<Id, Like>, t: LikeTarget, me: IdParam) {
    exists k :: k in likes && likes[k].target == t && SameId(likes[k].likedBy, me)
  }

  /** A target the requester has liked has at least one like. */
  lemma LikedImpliesCounted(likes: map<Id, Like>, t: LikeTarget, me: IdParam)
    requires IsLikedBy(likes, t, me)
    ensures LikesCount(likes, t) >= 1
  {
    var k :| k in likes && likes[k].target == t && SameId(likes[k].likedBy, me);
    assert k in LikesOn(likes, t);
  }

  /** `Like.deleteMany({<target field>: id})`: every like on `t` goes, every
      other like stays as it was. */
  function DropLikesOn(likes: map<Id, Like>, t: LikeTarget): (r: map<Id, Like>)
    ensures forall k :: k in r <==> k in likes && likes[k].target != t
    ensures forall k :: k in r ==> r[k] == likes[k]
  {
    map k | k in likes && likes[k].target != t :: likes[k]
  }

  /** After the cascade nobody likes `t` any more, and the like count and
      the "liked by" flag of every other target are what they were. */
  lemma {:induction false} DropLikesOnEffect(likes: map<Id, Like>, t: LikeTarget)
    ensures LikesCount(DropLikesOn(likes, t), t) == 0
    ensures forall me :: !IsLikedBy(DropLikesOn(likes, t), t, me)
    ensures forall u :: u != t ==> LikesOn(DropLikesOn(likes, t), u) == LikesOn(likes, u)
    ensures forall u, me :: u != t ==> (IsLikedBy(DropLikesOn(likes, t), u, me) <==> IsLikedBy(likes, u, me))
  {
    var r := DropLikesOn(likes, t);
    assert LikesOn(r, t) == {};
  }

  /** `Comment.deleteMany({video: id})`: every comment on the video goes,
      every other comment stays as it was. */
  function DropCommentsOn(comments: map<Id, Comment>, video: Id): (r: map<Id, Comment>)
    ensures forall k :: k in r <==> k in comments && comments[k].video != video
    ensures forall k :: k in r ==> r[k] == comments[k]
  {
    map k | k in comments && comments[k].video != video :: comments[k]
  }

  /** Ids of the subscription documents whose `channel` is `channel`. */
  function SubscribersOf(subs: map<Id, Subscription>, channel: Id): set<Id> {
    set k | k in subs && subs[k].channel == channel
  }

  /** `isSubscribed`: the requester is among the subscribers of `channel`. */
  predicate IsSubscribedBy(subs: map<Id, Subscription>, channel: Id, me: IdParam) {
    exists k :: k in subs && subs[k].channel == channel && SameId(subs[k].subscriber, me)
  }

  /** A channel the requester follows has at least one subscriber. */
  lemma SubscribedImpliesCounted(subs: map<Id, Subscription>, channel: Id, me: IdParam)
    requires IsSubscribedBy(subs, channel, me)
    ensures |SubscribersOf(subs, channel)| >= 1
  {
    var k :| k in subs && subs[k].channel == channel && SameId(subs[k].subscriber, me);
    assert k in SubscribersOf(subs, channel);
  }

  /** Ids of the users `findOne({username})` can match. */
  function UsersNamed(users: map<Id, User>, name: string): set<Id> {
    set k | k in users && users[k].username == name
  }

  function CardOf(users: map<Id, User>, id: Id): (r: Option<UserCard>)
    ensures r.Some? <==> id in users
    ensures r.Some? ==> r.value.id == id && r.value.username == users[id].username
    ensures r.Some? ==> r.value.fullName == users[id].fullName && r.value.avatar == users[id].avatar
  {
    if id in users then
      var u := users[id];
      Some(UserCard(id, u.username, u.fullName, u.avatar))
    else None
  }
}
