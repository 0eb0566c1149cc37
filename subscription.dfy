/** The subscription handlers: the subscribe/unsubscribe toggle and the list
    of channels the requester follows. */
module SubscriptionController {
  import opened Common
  import opened Order
  import opened Store

  /** The records that say `subscriber` follows `channel`. */
  function PairIds(subs: map<Id, Subscription>, subscriber: Id, channel: Id): set<Id> {
    set k | k in subs && subs[k].subscriber == subscriber && subs[k].channel == channel
  }

  /** Who follows whom, regardless of record ids. */
  function Relation(subs: map<Id, Subscription>): set<(Id, Id)> {
    set k | k in subs :: (subs[k].subscriber, subs[k].channel)
  }

  /** At most one record per (subscriber, channel) pair. */
  predicate UniquePairs(subs: map<Id, Subscription>) {
    forall j, k :: j in subs && k in subs && j != k ==> subs[j] != subs[k]
  }

  /** What the toggle does to the subscription table when `subscriber`
      toggles `channel` and the next fresh id is `n`: the first record of the
      pair is deleted (answer `false`), or, when there is none, a record with
      id `n` is created (answer `true`). */
  function Toggle(subs: map<Id, Subscription>, subscriber: Id, channel: Id, n: nat): (r: (map<Id, Subscription>, bool))
    requires AllBelow(subs.Keys, n)
    ensures r.1 <==> PairIds(subs, subscriber, channel) == {}
    ensures r.1 ==> r.0 == subs[n := Subscription(subscriber, channel)]
    ensures !r.1 ==> exists k :: k in PairIds(subs, subscriber, channel) && r.0 == subs - {k}
  {
    var found := First(PairIds(subs, subscriber, channel), n);
    FirstOfBounded(PairIds(subs, subscriber, channel), n);
    if found.None? then (subs[n := Subscription(subscriber, channel)], true)
    else (subs - {found.value}, false)
  }

  /** At most one record says `subscriber` follows `channel`. */
  predicate AtMostOne(subs: map<Id, Subscription>, subscriber: Id, channel: Id) {
    forall j, k :: j in PairIds(subs, subscriber, channel) && k in PairIds(subs, subscriber, channel) ==> j == k
  }

  /** With at most one record for the pair, the answer says whether the
      requester follows the channel afterwards. */
  lemma ToggleReportsState(subs: map<Id, Subscription>, subscriber: Id, channel: Id, n: nat)
    requires AllBelow(subs.Keys, n)
    requires AtMostOne(subs, subscriber, channel)
    ensures var (after, isSubscribed) := Toggle(subs, subscriber, channel, n);
            isSubscribed <==> PairIds(after, subscriber, channel) != {}
  {
    var (after, isSubscribed) := Toggle(subs, subscriber, channel, n);
    if isSubscribed {
      assert n in PairIds(after, subscriber, channel);
    } else {
      var k :| k in PairIds(subs, subscriber, channel) && after == subs - {k};
      assert forall j :: j in PairIds(after, subscriber, channel) ==> j in PairIds(subs, subscriber, channel);
    }
  }

  /** Every record of `subs` other than a `pair` record is in `after`,
      unchanged, and `after` has no other new record. */
  predicate OthersKept(subs: map<Id, Subscription>, after: map<Id, Subscription>, pair: Subscription) {
    && (forall k :: k in subs && subs[k] != pair ==> k in after && after[k] == subs[k])
    && (forall k :: k in after && after[k] != pair ==> k in subs && after[k] == subs[k])
  }

  lemma CreateKeepsOthers(subs: map<Id, Subscription>, n: Id, pair: Subscription)
    requires n !in subs
    ensures OthersKept(subs, subs[n := pair], pair)
  {
  }

  lemma DeleteKeepsOthers(subs: map<Id, Subscription>, j: Id, pair: Subscription)
    requires j in subs && subs[j] == pair
    ensures OthersKept(subs, subs - {j}, pair)
  {
  }

  /** Records of every other pair are neither removed, changed nor added. */
  lemma ToggleKeepsOthers(subs: map<Id, Subscription>, subscriber: Id, channel: Id, n: nat)
    requires AllBelow(subs.Keys, n)
    ensures OthersKept(subs, Toggle(subs, subscriber, channel, n).0, Subscription(subscriber, channel))
  {
    var pair := Subscription(subscriber, channel);
    var (after, created) := Toggle(subs, subscriber, channel, n);
    if created {
      assert n !in subs;
      CreateKeepsOthers(subs, n, pair);
    } else {
      var j :| j in PairIds(subs, subscriber, channel) && after == subs - {j};
      DeleteKeepsOthers(subs, j, pair);
    }
  }

  /** Unique pairs mean at most one record for any given pair. */
  lemma UniqueAtMostOne(subs: map<Id, Subscription>, subscriber: Id, channel: Id)
    requires UniquePairs(subs)
    ensures AtMostOne(subs, subscriber, channel)
  {
  }

  /** The toggle keeps the pairs unique. */
  lemma ToggleKeepsUnique(subs: map<Id, Subscription>, subscriber: Id, channel: Id, n: nat)
    requires AllBelow(subs.Keys, n) && UniquePairs(subs)
    ensures UniquePairs(Toggle(subs, subscriber, channel, n).0)
  {
    var (after, created) := Toggle(subs, subscriber, channel, n);
    if created {
      assert forall k :: k in subs && subs[k] == Subscription(subscriber, channel) ==> k in PairIds(subs, subscriber, channel);
    }
  }

  /** Subscribing and then unsubscribing gives back the table itself. */
  lemma CreateThenDelete(subs: map<Id, Subscription>, subscriber: Id, channel: Id, n: nat)
    requires AllBelow(subs.Keys, n)
    requires PairIds(subs, subscriber, channel) == {}
    ensures var once := subs[n := Subscription(subscriber, channel)];
            AllBelow(once.Keys, n + 1) && Toggle(once, subscriber, channel, n + 1) == (subs, false)
  {
    var once := subs[n := Subscription(subscriber, channel)];
    assert PairIds(once, subscriber, channel) == {n} by {
      assert forall j :: j in PairIds(once, subscriber, channel) && j != n ==> j in PairIds(subs, subscriber, channel);
    }
    assert once - {n} == subs;
  }

  /** Unsubscribing and then subscribing again gives back who follows whom
      (under a new record id). */
  lemma DeleteThenCreate(subs: map<Id, Subscription>, subscriber: Id, channel: Id, n: nat)
    requires AllBelow(subs.Keys, n)
    requires AtMostOne(subs, subscriber, channel) && PairIds(subs, subscriber, channel) != {}
    ensures var once := Toggle(subs, subscriber, channel, n).0;
            && AllBelow(once.Keys, n)
            && Toggle(once, subscriber, channel, n).1
            && Relation(Toggle(once, subscriber, channel, n).0) == Relation(subs)
  {
    var pair := Subscription(subscriber, channel);
    var once := Toggle(subs, subscriber, channel, n).0;
    var k :| k in PairIds(subs, subscriber, channel) && once == subs - {k};
    ToggleReportsState(subs, subscriber, channel, n);
    var twice := Toggle(once, subscriber, channel, n).0;
    assert twice == once[n := pair];
    forall p | p in Relation(subs) ensures p in Relation(twice) {
      var j :| j in subs && p == (subs[j].subscriber, subs[j].channel);
      if j == k { assert twice[n] == pair; } else { assert twice[j] == subs[j]; }
    }
    forall p | p in Relation(twice) ensures p in Relation(subs) {
      var j :| j in twice && p == (twice[j].subscriber, twice[j].channel);
      if j == n { assert subs[k] == pair; } else { assert twice[j] == subs[j]; }
    }
  }

  /** Toggling the same pair twice answers first one way and then the other,
      and leaves who follows whom as it was. */
  lemma {:induction false} ToggleTwiceRestores(subs: map<Id, Subscription>, subscriber: Id, channel: Id, n: nat)
    requires AllBelow(subs.Keys, n) && UniquePairs(subs)
    ensures var (once, created) := Toggle(subs, subscriber, channel, n);
            var n' := if created then n + 1 else n;
            && AllBelow(once.Keys, n')
            && Toggle(once, subscriber, channel, n').1 == !created
            && Relation(Toggle(once, subscriber, channel, n').0) == Relation(subs)
  {
    UniqueAtMostOne(subs, subscriber, channel);
    if PairIds(subs, subscriber, channel) == {} {
      CreateThenDelete(subs, subscriber, channel, n);
    } else {
      DeleteThenCreate(subs, subscriber, channel, n);
    }
  }

  /** The user `findOne({username})` finds. */
  function ChannelNamed(users: map<Id, User>, username: string, n: nat): Option<Id> {
    First(UsersNamed(users, username), n)
  }

  /** Handing out ids does not change which user a name finds. */
  lemma {:induction false} ChannelNamedStable(users: map<Id, User>, username: string, n: nat, m: nat)
    requires AllBelow(users.Keys, n) && n <= m
    ensures ChannelNamed(users, username, n) == ChannelNamed(users, username, m)
  {
    var named := UsersNamed(users, username);
    FirstOfBounded(named, n);
    FirstOfBounded(named, m);
  }

  /** `toggleSubscription`: 400 for an empty name and for a name no user has;
      a malformed requester id cannot be cast for the lookup (500); otherwise
      the table changes as `Toggle` says and the answer is whether the
      requester now follows the channel. */
  method ToggleSubscription(db: Db, me: IdParam, username: string) returns (r: Outcome<bool>)
    requires db.Valid()
    modifies db`subscriptions, db`nextId
    ensures db.Valid()
    ensures username == "" || UsersNamed(old(db.users), username) == {} ==> r == Err(BadRequest)
    ensures (username != "" && UsersNamed(old(db.users), username) != {} && !IsValidObjectId(me)) ==> r == Err(ServerError)
    ensures r.Err? ==> unchanged(db)
    ensures r.Ok? <==> username != "" && UsersNamed(old(db.users), username) != {} && IsValidObjectId(me)
    ensures r.Ok? ==>
      var channel := old(ChannelNamed(db.users, username, db.nextId));
      && channel.Some?
      && (db.subscriptions, r.value) == Toggle(old(db.subscriptions), me.id, channel.value, old(db.nextId))
      && db.nextId == if r.value then old(db.nextId) + 1 else old(db.nextId)
  {
    if username == "" {
      return Err(BadRequest);
    }
    FirstOfBounded(UsersNamed(db.users, username), db.nextId);
    var channel := ChannelNamed(db.users, username, db.nextId);
    if channel.None? {
      return Err(BadRequest);
    }
    if !IsValidObjectId(me) {
      return Err(ServerError);
    }
    var (after, isSubscribed) := Toggle(db.subscriptions, me.id, channel.value, db.nextId);
    if isSubscribed {
      var _ := db.NewId();
    }
    db.subscriptions := after;
    return Ok(isSubscribed);
  }

  /** Toggling the same channel twice: when the first toggle succeeds the
      second does too, it answers the opposite, and who follows whom is as
      before. */
  method ToggleTwice(db: Db, me: IdParam, username: string) returns (first: Outcome<bool>, second: Outcome<bool>)
    requires db.Valid()
    requires UniquePairs(db.subscriptions)
    modifies db`subscriptions, db`nextId
    ensures db.Valid()
    ensures first.Ok? ==> second.Ok? && second.value == !first.value
    ensures first.Ok? ==> Relation(db.subscriptions) == Relation(old(db.subscriptions))
    ensures first.Err? ==> second == first && unchanged(db)
  {
    first := ToggleSubscription(db, me, username);
    ghost var midNext := db.nextId;
    second := ToggleSubscription(db, me, username);
    if first.Ok? {
      ChannelNamedStable(db.users, username, old(db.nextId), midNext);
      var channel := ChannelNamed(db.users, username, old(db.nextId)).value;
      ToggleTwiceRestores(old(db.subscriptions), me.id, channel, old(db.nextId));
    }
  }

  /** One entry of the followed-channels list. The name field the projection
      asks for is `fullname`, which accounts do not have, so no display name
      is returned. */
  datatype ChannelEntry = ChannelEntry(channel: Id, username: string, avatar: string, latestVideo: Option<Id>)

  /** `$last` of the channel's videos in natural order. */
  function LatestVideo(db: Db, channel: Id): (v: Option<Id>)
    reads db
    requires db.Valid()
    ensures v.Some? ==> v.value in db.videos && db.videos[v.value].owner == channel
    ensures v.Some? ==> forall k :: k in db.videos && db.videos[k].owner == channel ==> k <= v.value
    ensures v.None? <==> forall k :: k in db.videos ==> db.videos[k].owner != channel
  {
    var own := set k | k in db.videos && db.videos[k].owner == channel;
    assert forall k :: k in own ==> k < db.nextId;
    assert forall k :: k in db.videos && db.videos[k].owner == channel ==> k in own;
    LastOfBounded(own, db.nextId);
    Last(own, db.nextId)
  }

  /** The subscription records of `subscriber`, in natural order. */
  function SubscriptionIds(db: Db, subscriber: Id): (ids: seq<Id>)
    reads db
    requires db.Valid()
    ensures forall k :: k in ids <==> k in db.subscriptions && db.subscriptions[k].subscriber == subscriber
    ensures Increasing(ids)
  {
    var mine := set k | k in db.subscriptions && db.subscriptions[k].subscriber == subscriber;
    assert forall k :: k in mine ==> k < db.nextId;
    Ascending(mine, 0, db.nextId)
  }

  /** The channels a list of subscription records points at. */
  function ChannelsOf(subs: map<Id, Subscription>, ids: seq<Id>): set<Id> {
    set k | k in ids && k in subs :: subs[k].channel
  }

  /** The channel of each record in `ids` whose channel account exists, one
      per record and in record order. */
  function ExistingChannels(subs: map<Id, Subscription>, users: map<Id, User>, ids: seq<Id>): seq<Id>
    requires forall k :: k in ids ==> k in subs
  {
    if ids == [] then []
    else if subs[ids[0]].channel in users then [subs[ids[0]].channel] + ExistingChannels(subs, users, ids[1..])
    else ExistingChannels(subs, users, ids[1..])
  }

  /** The channels a list of entries shows. */
  function Listed(r: seq<ChannelEntry>): set<Id> {
    set e | e in r :: e.channel
  }

  /** The entries for a list of subscription records; `$unwind` drops a
      record whose channel account does not exist. */
  function Entries(db: Db, ids: seq<Id>): (r: seq<ChannelEntry>)
    reads db
    requires db.Valid()
    requires forall k :: k in ids ==> k in db.subscriptions
    ensures |r| <= |ids|
    ensures |r| == |ExistingChannels(db.subscriptions, db.users, ids)|
    ensures forall i :: 0 <= i < |r| ==> r[i].channel == ExistingChannels(db.subscriptions, db.users, ids)[i]
    ensures forall e :: e in r ==> e.channel in db.users && e.username == db.users[e.channel].username
                                   && e.avatar == db.users[e.channel].avatar
                                   && e.latestVideo == LatestVideo(db, e.channel)
    ensures Listed(r) == ChannelsOf(db.subscriptions, ids) * db.users.Keys
  {
    if ids == [] then []
    else
      var c := db.subscriptions[ids[0]].channel;
      var rest := Entries(db, ids[1..]);
      assert ChannelsOf(db.subscriptions, ids) == {c} + ChannelsOf(db.subscriptions, ids[1..]) by {
        assert forall k :: k in ids <==> k == ids[0] || k in ids[1..];
      }
      if c in db.users then
        var r := [ChannelEntry(c, db.users[c].username, db.users[c].avatar, LatestVideo(db, c))] + rest;
        assert Listed(r) == {c} + Listed(rest) by {
          assert forall e :: e in r <==> e == r[0] || e in rest;
        }
        r
      else rest
  }

  /** `getSubscribedChannels`: 400 for an invalid requester id; otherwise the
      entries for the requester's subscriptions. */
  function GetSubscribedChannels(db: Db, me: IdParam): (r: Outcome<seq<ChannelEntry>>)
    reads db
    requires db.Valid()
    ensures r.Err? <==> !IsValidObjectId(me)
    ensures r.Err? ==> r.status == BadRequest
    ensures r.Ok? ==> r.value == Entries(db, SubscriptionIds(db, me.id))
  {
    if !IsValidObjectId(me) then Err(BadRequest)
    else Ok(Entries(db, SubscriptionIds(db, me.id)))
  }

  /** Every listed channel exists, is followed by the requester, and comes
      with its latest video. */
  lemma ListedChannelsFollowed(db: Db, me: IdParam)
    requires db.Valid() && IsValidObjectId(me)
    ensures forall e :: e in GetSubscribedChannels(db, me).value ==>
              && e.channel in db.users && IsSubscribedBy(db.subscriptions, e.channel, me)
              && e.latestVideo == LatestVideo(db, e.channel)
  {
    var ids := SubscriptionIds(db, me.id);
    var r := Entries(db, ids);
    forall e | e in r
      ensures IsSubscribedBy(db.subscriptions, e.channel, me)
    {
      assert e.channel in Listed(r);
      var k :| k in ids && k in db.subscriptions && db.subscriptions[k].channel == e.channel;
    }
  }

  /** Every existing channel the requester follows is listed. */
  lemma FollowedChannelsListed(db: Db, me: IdParam)
    requires db.Valid() && IsValidObjectId(me)
    ensures forall c :: c in db.users && IsSubscribedBy(db.subscriptions, c, me) ==>
              c in Listed(GetSubscribedChannels(db, me).value)
  {
    var ids := SubscriptionIds(db, me.id);
    var r := Entries(db, ids);
    forall c | c in db.users && IsSubscribedBy(db.subscriptions, c, me)
      ensures c in ChannelsOf(db.subscriptions, ids)
    {
      var k :| k in db.subscriptions && db.subscriptions[k].channel == c && SameId(db.subscriptions[k].subscriber, me);
      assert k in ids;
    }
  }
}
