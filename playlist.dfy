/** The playlist handlers: create, the per-user listing with its totals, the
    single playlist view, adding and removing a video, rename and delete. */
module PlaylistController {
  import opened Common
  import opened Order
  import opened Store

  /** `createPlaylist`: name and description must be truthy, the requester id
      valid; the new playlist is empty and owned by the requester. */
  method CreatePlaylist(db: Db, me: IdParam, name: Option<string>, description: Option<string>)
    returns (r: Outcome<Id>)
    requires db.Valid()
    modifies db`playlists, db`nextId
    ensures db.Valid()
    ensures !Truthy(name) || !Truthy(description) ==> r == Err(BadRequest)
    ensures (Truthy(name) && Truthy(description) && !IsValidObjectId(me)) ==> r == Err(BadRequest)
    ensures (Truthy(name) && Truthy(description) && IsValidObjectId(me)) ==> r.Ok?
    ensures r.Err? ==> unchanged(db)
    ensures r.Ok? ==>
      && r.value == old(db.nextId) && db.nextId == r.value + 1 && r.value !in old(db.playlists)
      && db.playlists == old(db.playlists)[r.value := Playlist(name.value, description.value, Some(me.id), [])]
  {
    if !Truthy(name) || !Truthy(description) {
      return Err(BadRequest);
    }
    if !IsValidObjectId(me) {
      return Err(BadRequest);
    }
    var id := db.NewId();
    db.playlists := db.playlists[id := Playlist(name.value, description.value, Some(me.id), [])];
    return Ok(id);
  }

  /** A `$lookup` from `videos` on a playlist's array: the stored videos the
      array names, each once, in natural order. */
  function JoinedVideos(videos: map<Id, Video>, list: seq<Id>, n: nat): (joined: seq<Id>)
    ensures forall v :: v in joined <==> v in list && v in videos && v < n
    ensures Increasing(joined)
  {
    Ascending(Named(videos, list), 0, n)
  }

  /** The stored videos an array names. */
  function Named(videos: map<Id, Video>, list: seq<Id>): set<Id> {
    set v | v in list && v in videos
  }

  /** `$sum` of the `views` of the joined videos. */
  function SumViews(videos: map<Id, Video>, joined: seq<Id>): nat
    requires forall v :: v in joined ==> v in videos
  {
    if joined == [] then 0 else videos[joined[0]].views + SumViews(videos, joined[1..])
  }

  /** Every joined video contributes its views to the total. */
  lemma {:induction false} SumViewsBound(videos: map<Id, Video>, joined: seq<Id>, v: Id)
    requires forall w :: w in joined ==> w in videos
    requires v in joined
    ensures videos[v].views <= SumViews(videos, joined)
  {
    if joined[0] != v {
      SumViewsBound(videos, joined[1..], v);
    }
  }

  /** The totals the listing and the single view attach to a playlist. */
  datatype Totals = Totals(totalVideos: nat, totalViews: nat)

  function TotalsOf(videos: map<Id, Video>, p: Playlist, n: nat): (t: Totals) {
    var joined := JoinedVideos(videos, p.videos, n);
    Totals(|joined|, SumViews(videos, joined))
  }

  /** `totalVideos` counts the distinct stored videos the playlist names
      (a name repeated in the array, or one whose video is gone, adds
      nothing), and no single video has more views than `totalViews`. */
  lemma TotalsMeaning(videos: map<Id, Video>, p: Playlist, n: nat)
    requires AllBelow(videos.Keys, n)
    ensures TotalsOf(videos, p, n).totalVideos == |Named(videos, p.videos)|
    ensures forall v :: v in p.videos && v in videos ==> videos[v].views <= TotalsOf(videos, p, n).totalViews
  {
    AscendingAll(Named(videos, p.videos), n);
    forall v | v in p.videos && v in videos ensures videos[v].views <= TotalsOf(videos, p, n).totalViews {
      SumViewsBound(videos, JoinedVideos(videos, p.videos, n), v);
    }
  }

  /** A playlist as the per-user listing projects it. */
  datatype PlaylistSummary = PlaylistSummary(id: Id, name: string, description: string, totals: Totals)

  /** The playlists whose owner is `owner`. */
  function OwnedBy(playlists: map<Id, Playlist>, owner: Id): set<Id> {
    set k | k in playlists && playlists[k].owner == Some(owner)
  }

  function Summaries(db: Db, ids: seq<Id>): (r: seq<PlaylistSummary>)
    reads db
    requires forall k :: k in ids ==> k in db.playlists
    ensures |r| == |ids|
    ensures forall i :: 0 <= i < |ids| ==> r[i].id == ids[i]
    ensures forall i :: 0 <= i < |ids| ==>
      r[i] == PlaylistSummary(ids[i], db.playlists[ids[i]].name, db.playlists[ids[i]].description,
                              TotalsOf(db.videos, db.playlists[ids[i]], db.nextId))
  {
    if ids == [] then []
    else
      var p := db.playlists[ids[0]];
      [PlaylistSummary(ids[0], p.name, p.description, TotalsOf(db.videos, p, db.nextId))] + Summaries(db, ids[1..])
  }

  /** The playlists `owner` owns, each once, in natural order. */
  function OwnedIds(db: Db, owner: Id): (ids: seq<Id>)
    reads db
    requires db.Valid()
    ensures forall k :: k in ids <==> k in db.playlists && db.playlists[k].owner == Some(owner)
    ensures Increasing(ids)
  {
    var owned := OwnedBy(db.playlists, owner);
    assert forall k :: k in owned ==> k < db.nextId;
    Ascending(owned, 0, db.nextId)
  }

  /** The listing of the playlists `owner` owns, with their totals. */
  function OwnedSummaries(db: Db, owner: Id): (r: seq<PlaylistSummary>)
    reads db
    requires db.Valid()
    ensures |r| == |OwnedIds(db, owner)|
    ensures forall i :: 0 <= i < |r| ==> r[i].id == OwnedIds(db, owner)[i]
    ensures forall i :: 0 <= i < |r| ==>
      r[i].id in db.playlists && r[i].totals == TotalsOf(db.videos, db.playlists[r[i].id], db.nextId)
  {
    Summaries(db, OwnedIds(db, owner))
  }

  /** `getUserPlaylists`: a blank name is rejected with 400; the first user
      with that exact name is looked up (500 when there is none) and the
      playlists that user owns are listed. */
  function GetUserPlaylists(db: Db, username: string): (r: Outcome<seq<PlaylistSummary>>)
    reads db
    requires db.Valid()
    ensures Trim(username) == "" ==> r == Err(BadRequest)
    ensures Trim(username) != "" && UsersNamed(db.users, username) == {} ==> r == Err(ServerError)
    ensures Trim(username) != "" && UsersNamed(db.users, username) != {} ==> r.Ok?
    ensures r.Ok? ==>
      exists owner :: owner in UsersNamed(db.users, username)
        && (forall u :: u in UsersNamed(db.users, username) ==> owner <= u)
        && r.value == OwnedSummaries(db, owner)
  {
    if Trim(username) == "" then Err(BadRequest)
    else
      var named := UsersNamed(db.users, username);
      FirstOfBounded(named, db.nextId);
      var user := First(named, db.nextId);
      if user.None? then Err(ServerError)
      else Ok(OwnedSummaries(db, user.value))
  }

  /** The single-playlist view. `videos` lists every joined video, published
      or not. */
  datatype PlaylistView = PlaylistView(name: string, description: string, totals: Totals,
                                       videos: seq<Id>, owner: Option<UserCard>)

  /** `"videos.isPublished": true` on the joined array: at least one joined
      video is published. */
  predicate AnyPublished(videos: map<Id, Video>, joined: seq<Id>)
    requires forall v :: v in joined ==> v in videos
  {
    exists i :: 0 <= i < |joined| && videos[joined[i]].isPublished
  }

  /** `getPlaylistById`: 400 for an invalid id and for a missing playlist.
      The pipeline keeps the playlist only when one of its joined videos is
      published, and the handler answers the first (only) result: nothing at
      all when no joined video is published, otherwise the view with every
      joined video, published or not. */
  function GetPlaylistById(db: Db, playlistId: IdParam): (r: Outcome<Option<PlaylistView>>)
    reads db
    requires db.Valid()
    ensures !IsValidObjectId(playlistId) ==> r == Err(BadRequest)
    ensures IsValidObjectId(playlistId) && playlistId.id !in db.playlists ==> r == Err(BadRequest)
    ensures r.Ok? <==> IsValidObjectId(playlistId) && playlistId.id in db.playlists
    ensures r.Ok? ==>
      var p := db.playlists[playlistId.id];
      var joined := JoinedVideos(db.videos, p.videos, db.nextId);
      && (r.value.Some? <==> exists v :: v in p.videos && v in db.videos && db.videos[v].isPublished)
      && (r.value.Some? ==>
            && r.value.value.name == p.name && r.value.value.description == p.description
            && r.value.value.videos == joined
            && r.value.value.totals == TotalsOf(db.videos, p, db.nextId)
            && r.value.value.owner == (if p.owner.Some? then CardOf(db.users, p.owner.value) else None))
  {
    if !IsValidObjectId(playlistId) || playlistId.id !in db.playlists then Err(BadRequest)
    else
      var p := db.playlists[playlistId.id];
      var joined := JoinedVideos(db.videos, p.videos, db.nextId);
      assert AnyPublished(db.videos, joined) <==> exists v :: v in p.videos && v in db.videos && db.videos[v].isPublished by {
        if exists v :: v in p.videos && v in db.videos && db.videos[v].isPublished {
          var v :| v in p.videos && v in db.videos && db.videos[v].isPublished;
          assert v < db.nextId;
          var i :| 0 <= i < |joined| && joined[i] == v;
        }
      }
      if !AnyPublished(db.videos, joined) then Ok(None)
      else
        var owner := if p.owner.Some? then CardOf(db.users, p.owner.value) else None;
        Ok(Some(PlaylistView(p.name, p.description, TotalsOf(db.videos, p, db.nextId), joined, owner)))
  }

  /** The requester may change the list of a playlist that has no owner, or
      when the requester owns the video (the playlist's own owner is not
      consulted). */
  predicate MayEditList(p: Playlist, v: Video, me: IdParam) {
    !(p.owner.Some? && !SameId(v.owner, me))
  }

  /** The shared checks of the add and remove handlers, in their order. */
  function ListEditCheck(db: Db, playlistId: IdParam, videoId: IdParam, me: IdParam): (status: Option<int>)
    reads db
    ensures status.None? <==>
      && IsValidObjectId(playlistId) && IsValidObjectId(videoId)
      && playlistId.id in db.playlists && videoId.id in db.videos
      && MayEditList(db.playlists[playlistId.id], db.videos[videoId.id], me)
    ensures status.Some? ==> status.value in {BadRequest, NotFound}
    ensures !IsValidObjectId(playlistId) || !IsValidObjectId(videoId) ==> status == Some(BadRequest)
    ensures (IsValidObjectId(playlistId) && IsValidObjectId(videoId)
             && (playlistId.id !in db.playlists || videoId.id !in db.videos)) ==> status == Some(NotFound)
    ensures (IsValidObjectId(playlistId) && IsValidObjectId(videoId)
             && playlistId.id in db.playlists && videoId.id in db.videos
             && !MayEditList(db.playlists[playlistId.id], db.videos[videoId.id], me)) ==> status == Some(BadRequest)
  {
    if !IsValidObjectId(playlistId) || !IsValidObjectId(videoId) then Some(BadRequest)
    else if playlistId.id !in db.playlists then Some(NotFound)
    else if videoId.id !in db.videos then Some(NotFound)
    else if !MayEditList(db.playlists[playlistId.id], db.videos[videoId.id], me) then Some(BadRequest)
    else None
  }

  /** `addVideoToPlaylist`: after the checks, `$addToSet` the video id onto
      the playlist's list and answer the updated playlist. */
  method AddVideoToPlaylist(db: Db, playlistId: IdParam, videoId: IdParam, me: IdParam) returns (r: Outcome<Playlist>)
    requires db.Valid()
    modifies db`playlists
    ensures db.Valid()
    ensures r.Err? <==> old(ListEditCheck(db, playlistId, videoId, me)).Some?
    ensures r.Err? ==> r.status == old(ListEditCheck(db, playlistId, videoId, me)).value && unchanged(db)
    ensures r.Ok? ==>
      var p := old(db.playlists)[playlistId.id];
      && r.value == p.(videos := AddToSet(p.videos, videoId.id))
      && db.playlists == old(db.playlists)[playlistId.id := r.value]
      && videoId.id in r.value.videos
      && (videoId.id in p.videos ==> r.value == p)
  {
    var status := ListEditCheck(db, playlistId, videoId, me);
    if status.Some? {
      return Err(status.value);
    }
    var p := db.playlists[playlistId.id];
    var updated := p.(videos := AddToSet(p.videos, videoId.id));
    db.playlists := db.playlists[playlistId.id := updated];
    return Ok(updated);
  }

  /** `removeVideoFromPlaylist`: after the same checks, `$pull` every
      occurrence of the video id and answer the updated playlist. */
  method RemoveVideoFromPlaylist(db: Db, playlistId: IdParam, videoId: IdParam, me: IdParam) returns (r: Outcome<Playlist>)
    requires db.Valid()
    modifies db`playlists
    ensures db.Valid()
    ensures r.Err? <==> old(ListEditCheck(db, playlistId, videoId, me)).Some?
    ensures r.Err? ==> r.status == old(ListEditCheck(db, playlistId, videoId, me)).value && unchanged(db)
    ensures r.Ok? ==>
      var p := old(db.playlists)[playlistId.id];
      && r.value == p.(videos := Pull(p.videos, videoId.id))
      && db.playlists == old(db.playlists)[playlistId.id := r.value]
      && videoId.id !in r.value.videos
      && IsSubsequence(r.value.videos, p.videos)
  {
    var status := ListEditCheck(db, playlistId, videoId, me);
    if status.Some? {
      return Err(status.value);
    }
    var p := db.playlists[playlistId.id];
    var updated := p.(videos := Pull(p.videos, videoId.id));
    PullKeepsOrder(p.videos, videoId.id);
    db.playlists := db.playlists[playlistId.id := updated];
    return Ok(updated);
  }

  /** Adding the same video twice: the second add succeeds whenever the first
      did and changes nothing. */
  method AddVideoTwice(db: Db, playlistId: IdParam, videoId: IdParam, me: IdParam)
    returns (first: Outcome<Playlist>, second: Outcome<Playlist>)
    requires db.Valid()
    modifies db`playlists
    ensures db.Valid()
    ensures first.Ok? ==> playlistId.ObjectId? && second == first && db.playlists == old(db.playlists)[playlistId.id := first.value]
    ensures first.Err? ==> second == first && db.playlists == old(db.playlists)
  {
    first := AddVideoToPlaylist(db, playlistId, videoId, me);
    ghost var mid := db.playlists;
    second := AddVideoToPlaylist(db, playlistId, videoId, me);
    if first.Ok? {
      AddToSetIdempotent(old(db.playlists)[playlistId.id].videos, videoId.id);
      assert db.playlists == mid;
    }
  }

  /** Adding a video the list does not hold and then removing it again gives
      back the playlists as they were. */
  method AddThenRemove(db: Db, playlistId: IdParam, videoId: IdParam, me: IdParam)
    returns (added: Outcome<Playlist>, removed: Outcome<Playlist>)
    requires db.Valid()
    requires IsValidObjectId(playlistId) && IsValidObjectId(videoId)
    requires playlistId.id in db.playlists ==> videoId.id !in db.playlists[playlistId.id].videos
    modifies db`playlists
    ensures db.Valid()
    ensures added.Ok? <==> removed.Ok?
    ensures db.playlists == old(db.playlists)
  {
    added := AddVideoToPlaylist(db, playlistId, videoId, me);
    removed := RemoveVideoFromPlaylist(db, playlistId, videoId, me);
    if added.Ok? {
      var p := old(db.playlists)[playlistId.id];
      AddThenPullRestores(p.videos, videoId.id);
      assert db.playlists[playlistId.id] == p;
    }
  }

  /** The requester owns the playlist (an ownerless playlist belongs to no one). */
  predicate OwnsPlaylist(p: Playlist, me: IdParam) {
    p.owner.Some? && SameId(p.owner.value, me)
  }

  /** `deletePlaylist`: 400 for an invalid id; a missing playlist makes
      `playlist.owner` throw (500); anyone but the owner gets 400. */
  method DeletePlaylist(db: Db, playlistId: IdParam, me: IdParam) returns (r: Outcome<()>)
    requires db.Valid()
    modifies db`playlists
    ensures db.Valid()
    ensures !IsValidObjectId(playlistId) ==> r == Err(BadRequest)
    ensures IsValidObjectId(playlistId) && playlistId.id !in old(db.playlists) ==> r == Err(ServerError)
    ensures (IsValidObjectId(playlistId) && playlistId.id in old(db.playlists)
             && !OwnsPlaylist(old(db.playlists)[playlistId.id], me)) ==> r == Err(BadRequest)
    ensures r.Err? ==> unchanged(db)
    ensures r.Ok? <==> IsValidObjectId(playlistId) && playlistId.id in old(db.playlists)
                       && OwnsPlaylist(old(db.playlists)[playlistId.id], me)
    ensures r.Ok? ==> db.playlists == old(db.playlists) - {playlistId.id}
  {
    if !IsValidObjectId(playlistId) {
      return Err(BadRequest);
    }
    if playlistId.id !in db.playlists {
      return Err(ServerError);
    }
    if !OwnsPlaylist(db.playlists[playlistId.id], me) {
      return Err(BadRequest);
    }
    db.playlists := db.playlists - {playlistId.id};
    return Ok(());
  }

  /** `updatePlaylist`. `name.toString()` and `description.toString()` throw
      when the field is absent (500); an empty one is rejected with 400
      before the id is looked at. Then 400 for an invalid id, 404 for a
      missing playlist and 400 for anyone but the owner; on success only the
      name and the description change. */
  method UpdatePlaylist(db: Db, playlistId: IdParam, me: IdParam, name: Option<string>, description: Option<string>)
    returns (r: Outcome<Playlist>)
    requires db.Valid()
    modifies db`playlists
    ensures db.Valid()
    ensures name.None? || (name == Some("")) ==> r == Err(if name.None? then ServerError else BadRequest)
    ensures name.Some? && name.value != "" && description.None? ==> r == Err(ServerError)
    ensures name.Some? && name.value != "" && description == Some("") ==> r == Err(BadRequest)
    ensures (Truthy(name) && Truthy(description) && !IsValidObjectId(playlistId)) ==> r == Err(BadRequest)
    ensures (Truthy(name) && Truthy(description) && IsValidObjectId(playlistId)
             && playlistId.id !in old(db.playlists)) ==> r == Err(NotFound)
    ensures (Truthy(name) && Truthy(description) && IsValidObjectId(playlistId) && playlistId.id in old(db.playlists)
             && !OwnsPlaylist(old(db.playlists)[playlistId.id], me)) ==> r == Err(BadRequest)
    ensures r.Err? ==> unchanged(db)
    ensures r.Ok? <==> Truthy(name) && Truthy(description) && IsValidObjectId(playlistId)
                       && playlistId.id in old(db.playlists) && OwnsPlaylist(old(db.playlists)[playlistId.id], me)
    ensures r.Ok? ==>
      var p := old(db.playlists)[playlistId.id];
      && r.value == Playlist(name.value, description.value, p.owner, p.videos)
      && db.playlists == old(db.playlists)[playlistId.id := r.value]
  {
    if name.None? {
      return Err(ServerError);
    }
    if name.value == "" {
      return Err(BadRequest);
    }
    if description.None? {
      return Err(ServerError);
    }
    if description.value == "" {
      return Err(BadRequest);
    }
    if !IsValidObjectId(playlistId) {
      return Err(BadRequest);
    }
    if playlistId.id !in db.playlists {
      return Err(NotFound);
    }
    var p := db.playlists[playlistId.id];
    if !OwnsPlaylist(p, me) {
      return Err(BadRequest);
    }
    var updated := p.(name := name.value, description := description.value);
    db.playlists := db.playlists[playlistId.id := updated];
    return Ok(updated);
  }
}
