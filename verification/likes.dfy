/** Likes (src/controllers/like.controller.js). The three toggle endpoints are the same
    find-then-delete-or-create on a like keyed by (liker, field, target); they differ only in
    which of the like's three reference fields they use, so they are one function of a `Kind`. */
module Likes {
  import opened Base
  import opened Seqs
  import opened Ids
  import opened Store
  import Videos

  /** Which reference field a toggle works on: toggleVideoLike, toggleCommentLike, toggleTweetLike. */
  datatype Kind = OnVideo | OnComment | OnTweet

  function Target(l: Like, k: Kind): Option<Id> {
    match k
    case OnVideo => l.video
    case OnComment => l.comment
    case OnTweet => l.tweet
  }

  /** The document `Like.create` builds: the liker and the one toggled field. */
  function NewLike(u: Id, k: Kind, t: Id): Like {
    match k
    case OnVideo => Like(Some(t), None, None, u)
    case OnComment => Like(None, Some(t), None, u)
    case OnTweet => Like(None, None, Some(t), u)
  }

  /** The `findOne` filter `{likedBy: u, <field of k>: t}`. */
  function Key(u: Id, k: Kind, t: Id): Like -> bool {
    (l: Like) => l.likedBy == u && Target(l, k) == Some(t)
  }

  /** Every like not matched by `Key(u, k, t)`. */
  function OtherThan(u: Id, k: Kind, t: Id): Like -> bool {
    (l: Like) => !Key(u, k, t)(l)
  }

  predicate Liked(likes: seq<Like>, u: Id, k: Kind, t: Id) {
    Count(likes, Key(u, k, t)) > 0
  }

  /** No key has two likes. The like schema has no unique index, so this is a property that
      sequential toggles keep, not one the store enforces. */
  ghost predicate UniqueLikes(likes: seq<Like>) {
    forall u, k, t :: Count(likes, Key(u, k, t)) <= 1
  }

  /** A like as the toggles create it: exactly one reference field is set. */
  predicate SingleTarget(l: Like) {
    || (l.video.Some? && l.comment.None? && l.tweet.None?)
    || (l.video.None? && l.comment.Some? && l.tweet.None?)
    || (l.video.None? && l.comment.None? && l.tweet.Some?)
  }

  /** toggleVideoLike, toggleCommentLike and toggleTweetLike: an invalid id is rejected with 400;
      an existing like for the key is deleted (data null); otherwise one like is created. */
  function ToggleLike(s: Store, caller: Id, k: Kind, targetId: string): (h: Handled<Option<Like>>)
    ensures !IsValidObjectId(targetId) ==> h == Fail(s, 400)
    ensures IsValidObjectId(targetId) ==>
      h.out.Ok? && h.out.code == 200 && h.store == s.(likes := h.store.likes)
    ensures IsValidObjectId(targetId) && Liked(s.likes, caller, k, Cast(targetId)) ==>
      && h.out.data == None
      && Count(h.store.likes, Key(caller, k, Cast(targetId))) == Count(s.likes, Key(caller, k, Cast(targetId))) - 1
      && exists i :: 0 <= i < |s.likes| && Key(caller, k, Cast(targetId))(s.likes[i]) && h.store.likes == RemoveAt(s.likes, i)
    ensures IsValidObjectId(targetId) && !Liked(s.likes, caller, k, Cast(targetId)) ==>
      && h.out.data == Some(NewLike(caller, k, Cast(targetId)))
      && h.store.likes == s.likes + [NewLike(caller, k, Cast(targetId))]
  {
    if !IsValidObjectId(targetId) then Fail(s, 400)
    else
      var key := Key(caller, k, Cast(targetId));
      match FirstIndex(s.likes, key)
      case Some(i) =>
        CountRemoveAt(s.likes, i, key);
        Handled(s.(likes := RemoveAt(s.likes, i)), Ok(200, None))
      case None =>
        var l := NewLike(caller, k, Cast(targetId));
        Handled(s.(likes := s.likes + [l]), Ok(200, Some(l)))
  }

  /** A toggle keeps "at most one like per key", for every key of every kind. */
  lemma {:induction false} ToggleLikeKeepsUnique(s: Store, caller: Id, k: Kind, targetId: string)
    requires UniqueLikes(s.likes)
    ensures UniqueLikes(ToggleLike(s, caller, k, targetId).store.likes)
  {
    var h := ToggleLike(s, caller, k, targetId);
    if IsValidObjectId(targetId) {
      var t := Cast(targetId);
      var key := Key(caller, k, t);
      match FirstIndex(s.likes, key)
      case Some(i) =>
        forall u, k', t' ensures Count(h.store.likes, Key(u, k', t')) <= 1 {
          CountRemoveAt(s.likes, i, Key(u, k', t'));
        }
      case None =>
        var l := NewLike(caller, k, t);
        assert (s.likes + [l])[..|s.likes|] == s.likes;
        forall u, k', t' ensures Count(h.store.likes, Key(u, k', t')) <= 1 {
          if Key(u, k', t')(l) {
            assert u == caller && k' == k && t' == t;
          }
        }
    }
  }

  /** A toggle keeps every like single-target. */
  lemma ToggleLikeKeepsSingleTarget(s: Store, caller: Id, k: Kind, targetId: string)
    requires forall j :: 0 <= j < |s.likes| ==> SingleTarget(s.likes[j])
    ensures var likes := ToggleLike(s, caller, k, targetId).store.likes;
      forall j :: 0 <= j < |likes| ==> SingleTarget(likes[j])
  {
  }

  /** A toggle never touches a like with another key: the likes of other users, of other
      targets, and of the other two fields are kept, in order. */
  lemma {:induction false} ToggleLikeKeepsOthers(s: Store, caller: Id, k: Kind, targetId: string)
    requires IsValidObjectId(targetId)
    ensures var other := OtherThan(caller, k, Cast(targetId));
      Filter(ToggleLike(s, caller, k, targetId).store.likes, other) == Filter(s.likes, other)
  {
    var t := Cast(targetId);
    var key := Key(caller, k, t);
    var other := OtherThan(caller, k, t);
    match FirstIndex(s.likes, key)
    case Some(i) =>
      FilterRemoveAt(s.likes, i, other);
    case None =>
      FilterAppendOther(s.likes, NewLike(caller, k, t), other);
  }

  /** Two toggles in a row on a key that had no like restore the store exactly. */
  lemma {:induction false} ToggleLikeTwiceFromUnliked(s: Store, caller: Id, k: Kind, targetId: string)
    requires IsValidObjectId(targetId) && !Liked(s.likes, caller, k, Cast(targetId))
    ensures var h1 := ToggleLike(s, caller, k, targetId);
      && h1.out == Ok(200, Some(NewLike(caller, k, Cast(targetId))))
      && ToggleLike(h1.store, caller, k, targetId) == Handled(s, Ok(200, None))
  {
    var t := Cast(targetId);
    var key := Key(caller, k, t);
    var l := NewLike(caller, k, t);
    var likes1 := s.likes + [l];
    assert ToggleLike(s, caller, k, targetId).store == s.(likes := likes1);
    assert FirstIndex(likes1, key) == Some(|s.likes|) by {
      assert likes1[|s.likes|] == l;
    }
    assert RemoveAt(likes1, |s.likes|) == s.likes;
  }

  /** Two toggles in a row on a key that had a like give back the same likes, except that the
      re-created like is now the newest. */
  lemma {:induction false} ToggleLikeTwiceFromLiked(s: Store, caller: Id, k: Kind, targetId: string)
    requires IsValidObjectId(targetId) && Liked(s.likes, caller, k, Cast(targetId))
    requires UniqueLikes(s.likes)
    requires forall j :: 0 <= j < |s.likes| ==> SingleTarget(s.likes[j])
    ensures var h1 := ToggleLike(s, caller, k, targetId);
      var h2 := ToggleLike(h1.store, caller, k, targetId);
      && h1.out == Ok(200, None)
      && h2.out == Ok(200, Some(NewLike(caller, k, Cast(targetId))))
      && h2.store == s.(likes := h2.store.likes)
      && multiset(h2.store.likes) == multiset(s.likes)
  {
    var t := Cast(targetId);
    var key := Key(caller, k, t);
    var i := FirstIndex(s.likes, key).value;
    var l := s.likes[i];
    var likes1 := RemoveAt(s.likes, i);
    var h1 := ToggleLike(s, caller, k, targetId);
    assert h1.store.likes == likes1 && h1.store == s.(likes := likes1);
    assert !Liked(likes1, caller, k, t) by {
      assert Count(s.likes, key) <= 1;
      CountRemoveAt(s.likes, i, key);
    }
    assert l == NewLike(caller, k, t) by {
      assert SingleTarget(l) && key(l);
    }
    MultisetRemoveAppend(s.likes, i);
  }

  /** The fields `getLikedVideos` populates ("title desciption thumbnail owner createdAt"):
      "desciption" names no field, so the description is not among them. */
  datatype LikedVideo = LikedVideo(id: Id, title: string, thumbnail: string, owner: Id)

  /** `populate` of a video reference: the video's selected fields, or null once it is gone. */
  function PopulateVideo(videos: seq<Video>, id: Id): (r: Option<LikedVideo>)
    ensures r.Some? <==> exists j :: 0 <= j < |videos| && videos[j].id == id
    ensures r.Some? ==> exists j :: (0 <= j < |videos| && videos[j].id == id
      && r.value == LikedVideo(id, videos[j].title, videos[j].thumbnail, videos[j].owner))
  {
    match FirstIndex(videos, Videos.WithId(id))
    case None => None
    case Some(j) => Some(LikedVideo(id, videos[j].title, videos[j].thumbnail, videos[j].owner))
  }

  /** The filter `{likedBy: u, video: {$exists: true}}`. */
  function VideoLikeBy(u: Id): Like -> bool {
    (l: Like) => l.likedBy == u && l.video.Some?
  }

  function PopulateAll(videos: seq<Video>, likes: seq<Like>): (r: seq<Option<LikedVideo>>)
    requires forall j :: 0 <= j < |likes| ==> likes[j].video.Some?
    ensures |r| == |likes|
    ensures forall j :: 0 <= j < |likes| ==> r[j] == PopulateVideo(videos, likes[j].video.value)
  {
    seq(|likes|, j requires 0 <= j < |likes| => PopulateVideo(videos, likes[j].video.value))
  }

  /** getLikedVideos: the caller's likes that name a video, newest first, each replaced by its
      populated video. */
  function GetLikedVideos(s: Store, caller: Id): (h: Handled<seq<Option<LikedVideo>>>)
    ensures h.store == s
    ensures !IsValidObjectId(caller) ==> h.out == Err(Status(400))
    ensures IsValidObjectId(caller) ==> h.out.Ok? && h.out.code == 200
    ensures IsValidObjectId(caller) ==> |h.out.data| == Count(s.likes, VideoLikeBy(caller))
    ensures IsValidObjectId(caller) ==> forall j :: 0 <= j < |h.out.data| ==>
      exists l :: l in s.likes && l.likedBy == caller && l.video.Some? && h.out.data[j] == PopulateVideo(s.videos, l.video.value)
    ensures IsValidObjectId(caller) ==>
      && Reverse(h.out.data) == PopulateAll(s.videos, Filter(s.likes, VideoLikeBy(caller)))
      && multiset(h.out.data) == multiset(PopulateAll(s.videos, Filter(s.likes, VideoLikeBy(caller))))
  {
    if !IsValidObjectId(caller) then Fail(s, 400)
    else
      var mine := NewestFirst(s.likes, VideoLikeBy(caller));
      PopulateAllReverse(s.videos, Filter(s.likes, VideoLikeBy(caller)));
      Handled(s, Ok(200, PopulateAll(s.videos, mine)))
  }

  /** Populating a reversed list gives the reversed populated list. */
  lemma PopulateAllReverse(videos: seq<Video>, likes: seq<Like>)
    requires forall j :: 0 <= j < |likes| ==> likes[j].video.Some?
    ensures var r := Reverse(likes);
      (forall j :: 0 <= j < |r| ==> r[j].video.Some?) && Reverse(PopulateAll(videos, r)) == PopulateAll(videos, likes)
  {
    var r := Reverse(likes);
    var n := |likes|;
    var b := PopulateAll(videos, r);
    var a := PopulateAll(videos, likes);
    forall i | 0 <= i < n
      ensures a[i] == b[n - 1 - i]
    {
      assert r[n - 1 - i] == likes[i];
    }
    ReverseOf(b, a);
  }

  /** A like just created on a video heads the liker's liked-videos list. */
  lemma {:induction false} NewVideoLikeListedFirst(s: Store, caller: Id, videoId: string)
    requires IsValidObjectId(caller) && IsValidObjectId(videoId)
    requires !Liked(s.likes, caller, OnVideo, Cast(videoId))
    ensures var h := GetLikedVideos(ToggleLike(s, caller, OnVideo, videoId).store, caller);
      h.out.Ok? && |h.out.data| > 0 && h.out.data[0] == PopulateVideo(s.videos, Cast(videoId))
  {
    var l := NewLike(caller, OnVideo, Cast(videoId));
    NewestFirstAppend(s.likes, l, VideoLikeBy(caller));
  }
}
