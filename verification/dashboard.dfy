/** The channel dashboard (src/controllers/dashboard.controller.js): counts and sums over the
    store for the caller's channel, and the caller's own videos. */
module Dashboard {
  import opened Base
  import opened Seqs
  import opened Ids
  import opened Store
  import opened Videos
  import Likes
  import Subscriptions

  datatype ChannelStats = ChannelStats(totalVideos: nat, totalViews: nat, totalComments: nat,
                                       totalSubscribers: nat, totalLikes: nat)

  function Views(v: Video): nat {
    v.views
  }

  /** `Video.find({owner}).distinct("_id")`. */
  function OwnedIds(videos: seq<Video>, u: Id): set<Id> {
    set j | 0 <= j < |videos| && videos[j].owner == u :: videos[j].id
  }

  /** The filter `{video: {$in: ids}}`. */
  function OnAnyOf(ids: set<Id>): Like -> bool {
    (l: Like) => l.video.Some? && l.video.value in ids
  }

  function CommentBy(u: Id): Comment -> bool {
    (c: Comment) => c.owner == u
  }

  /** getChannelStats for the caller's channel. The `$group` stage yields no row for a channel
      without videos, and `|| 0` turns the missing totals into 0. Comments are counted by
      author: those the caller wrote, on any video. */
  function GetChannelStats(s: Store, caller: Id): (h: Handled<ChannelStats>)
    ensures h.store == s
    ensures !IsValidObjectId(caller) <==> h.out == Err(Status(400))
    ensures h.out.Ok? ==> h.out.code == 200
    ensures h.out.Ok? ==> h.out.data.totalVideos == |Filter(s.videos, OwnedBy(caller))|
    ensures h.out.Ok? ==> h.out.data.totalViews == Sum(Filter(s.videos, OwnedBy(caller)), Views)
    ensures h.out.Ok? ==> h.out.data.totalSubscribers == |Filter(s.subscriptions, Subscriptions.ToChannel(caller))|
    ensures h.out.Ok? ==> h.out.data.totalComments == |Filter(s.comments, CommentBy(caller))|
    ensures h.out.Ok? ==> h.out.data.totalLikes == |Filter(s.likes, OnAnyOf(OwnedIds(s.videos, caller)))|
    ensures h.out.Ok? && (forall j :: 0 <= j < |s.videos| ==> s.videos[j].owner != caller) ==>
      h.out.data.totalVideos == 0 && h.out.data.totalViews == 0 && h.out.data.totalLikes == 0
  {
    if !IsValidObjectId(caller) then Fail(s, 400)
    else
      var mine := Filter(s.videos, OwnedBy(caller));
      var ids := OwnedIds(s.videos, caller);
      assert (forall j :: 0 <= j < |s.videos| ==> s.videos[j].owner != caller) ==> ids == {} && mine == [] by {
        if forall j :: 0 <= j < |s.videos| ==> s.videos[j].owner != caller {
          assert Count(s.videos, OwnedBy(caller)) == 0;
        }
      }
      Handled(s, Ok(200, ChannelStats(
        Count(s.videos, OwnedBy(caller)),
        Sum(mine, Views),
        Count(s.comments, CommentBy(caller)),
        Count(s.subscriptions, Subscriptions.ToChannel(caller)),
        Count(s.likes, OnAnyOf(ids)))))
  }

  /** getChannelVideos: every video of the caller, published or not, newest first. */
  function GetChannelVideos(s: Store, caller: Id): (h: Handled<seq<Video>>)
    ensures h.store == s
    ensures h.out.Ok? && h.out.code == 200
    ensures |h.out.data| == Count(s.videos, OwnedBy(caller))
    ensures forall i :: 0 <= i < |h.out.data| ==> h.out.data[i] in s.videos && h.out.data[i].owner == caller
    ensures forall j :: 0 <= j < |s.videos| && s.videos[j].owner == caller ==> s.videos[j] in h.out.data
    ensures Reverse(h.out.data) == Filter(s.videos, OwnedBy(caller))
  {
    Handled(s, Ok(200, NewestFirst(s.videos, OwnedBy(caller))))
  }

  // ---- how the other handlers move the dashboard ----

  /** A like toggle on one of the channel's videos moves totalLikes by exactly one: up when it
      creates the like, down when it deletes it. */
  lemma {:induction false} VideoLikeToggleMovesTotalLikes(s: Store, channel: Id, liker: Id, videoId: string)
    requires IsValidObjectId(channel) && IsValidObjectId(videoId)
    requires Cast(videoId) in OwnedIds(s.videos, channel)
    ensures var before := GetChannelStats(s, channel).out.data.totalLikes;
      var after := GetChannelStats(Likes.ToggleLike(s, liker, Likes.OnVideo, videoId).store, channel).out.data.totalLikes;
      after == if Likes.Liked(s.likes, liker, Likes.OnVideo, Cast(videoId)) then before - 1 else before + 1
  {
    var h := Likes.ToggleLike(s, liker, Likes.OnVideo, videoId);
    var t := Cast(videoId);
    var key := Likes.Key(liker, Likes.OnVideo, t);
    var ids := OwnedIds(s.videos, channel);
    assert h.store.videos == s.videos;
    match FirstIndex(s.likes, key)
    case Some(i) =>
      assert OnAnyOf(ids)(s.likes[i]);
      CountRemoveAt(s.likes, i, OnAnyOf(ids));
    case None =>
      var l := Likes.NewLike(liker, Likes.OnVideo, t);
      assert OnAnyOf(ids)(l);
      assert (s.likes + [l])[..|s.likes|] == s.likes;
  }

  /** A subscription toggle to the channel moves totalSubscribers by exactly one. */
  lemma {:induction false} SubscriptionToggleMovesTotalSubscribers(s: Store, subscriber: Id, channelId: string)
    requires IsValidObjectId(channelId) && channelId != subscriber
    ensures var c := Cast(channelId);
      var before := GetChannelStats(s, c).out.data.totalSubscribers;
      var after := GetChannelStats(Subscriptions.ToggleSubscription(s, subscriber, channelId).store, c).out.data.totalSubscribers;
      after == if Subscriptions.Subscribed(s.subscriptions, subscriber, c) then before - 1 else before + 1
  {
    var c := Cast(channelId);
    var subs := s.subscriptions;
    match FirstIndex(subs, Subscriptions.Edge(subscriber, c))
    case Some(i) =>
      CountRemoveAt(subs, i, Subscriptions.ToChannel(c));
    case None =>
      assert (subs + [Subscription(subscriber, c)])[..|subs|] == subs;
  }

  /** Flipping a video's published flag leaves every channel total as it was: drafts count. */
  lemma {:induction false} PublishToggleKeepsStats(s: Store, caller: Id, videoId: string, channel: Id)
    ensures GetChannelStats(TogglePublishStatus(s, caller, videoId).store, channel).out == GetChannelStats(s, channel).out
  {
    if IsValidObjectId(videoId) && FirstIndex(s.videos, OwnedWithId(Cast(videoId), caller)).Some? {
      var i := FirstIndex(s.videos, OwnedWithId(Cast(videoId), caller)).value;
      var v := s.videos[i].(isPublished := !s.videos[i].isPublished);
      var s1 := s.(videos := s.videos[i := v]);
      assert TogglePublishStatus(s, caller, videoId).store == s1;
      FilterUpdateSum(s.videos, i, v, OwnedBy(channel), Views);
      OwnedIdsUpdate(s.videos, i, v, channel);
      StatsOfSameTotals(s, s1, channel);
    }
  }

  /** Two stores whose channel totals agree give the same stats. */
  lemma StatsOfSameTotals(s: Store, s1: Store, channel: Id)
    requires s1.comments == s.comments && s1.subscriptions == s.subscriptions && s1.likes == s.likes
    requires |Filter(s1.videos, OwnedBy(channel))| == |Filter(s.videos, OwnedBy(channel))|
    requires Sum(Filter(s1.videos, OwnedBy(channel)), Views) == Sum(Filter(s.videos, OwnedBy(channel)), Views)
    requires OwnedIds(s1.videos, channel) == OwnedIds(s.videos, channel)
    ensures GetChannelStats(s1, channel).out == GetChannelStats(s, channel).out
  {
  }

  /** Replacing a video by one with the same id and owner keeps every owner's id set. */
  lemma OwnedIdsUpdate(vs: seq<Video>, i: nat, v: Video, u: Id)
    requires i < |vs| && v.id == vs[i].id && v.owner == vs[i].owner
    ensures OwnedIds(vs[i := v], u) == OwnedIds(vs, u)
  {
    var ws := vs[i := v];
    assert forall j :: 0 <= j < |ws| ==> ws[j].id == vs[j].id && ws[j].owner == vs[j].owner;
  }

  /** A video just published heads the channel's video list. */
  lemma {:induction false} NewVideoListedFirst(s: Store, caller: Id, title: Option<string>, description: Option<string>,
                                               files: Option<VideoFiles>, videoUpload: Option<Upload>,
                                               thumbnailUpload: Option<Upload>, newId: Id)
    requires PublishAVideo(s, caller, title, description, files, videoUpload, thumbnailUpload, newId).out.Ok?
    ensures var h := PublishAVideo(s, caller, title, description, files, videoUpload, thumbnailUpload, newId);
      var l := GetChannelVideos(h.store, caller).out.data;
      |l| > 0 && l[0] == h.out.data
  {
    var h := PublishAVideo(s, caller, title, description, files, videoUpload, thumbnailUpload, newId);
    NewestFirstAppend(s.videos, h.out.data, OwnedBy(caller));
  }
}
