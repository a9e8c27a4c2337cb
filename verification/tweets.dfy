/** Tweets (src/controllers/tweet.controller.js): posting, a user's tweets newest first, and
    editing and deleting one's own tweet. */
module Tweets {
  import opened Base
  import opened Seqs
  import opened Text
  import opened Ids
  import opened Store

  function TweetWithId(id: Id): Tweet -> bool {
    (t: Tweet) => t.id == id
  }

  /** The filter `{_id: id, owner: u}` of the edit and delete handlers. */
  function TweetOwnedWithId(id: Id, u: Id): Tweet -> bool {
    (t: Tweet) => t.id == id && t.owner == u
  }

  function TweetBy(u: Id): Tweet -> bool {
    (t: Tweet) => t.owner == u
  }

  /** createTweet: some text is required (400); the tweet is stored trimmed, owned by the
      caller (201). `newId` is the id the driver generates; if it is taken the insert fails. */
  function CreateTweet(s: Store, caller: Id, content: Option<string>, newId: Id): (h: Handled<Tweet>)
    ensures !HasText(content) ==> h == Fail(s, 400)
    ensures h.out.Err? ==> h.store == s
    ensures h.out.Ok? <==> HasText(content) && Count(s.tweets, TweetWithId(newId)) == 0
    ensures h.out.Ok? ==>
      && h.out.code == 201
      && h.store == s.(tweets := s.tweets + [h.out.data])
      && h.out.data == Tweet(newId, Trim(content.value), caller)
      && !IsBlank(h.out.data.content)
  {
    if !HasText(content) then Fail(s, 400)
    else if FirstIndex(s.tweets, TweetWithId(newId)).Some? then Reject(s, Unspecified)
    else
      TrimIdempotent(content.value);
      var t := Tweet(newId, Trim(content.value), caller);
      Handled(s.(tweets := s.tweets + [t]), Ok(201, t))
  }

  /** getUserTweets: every tweet of the user, newest first. */
  function GetUserTweets(s: Store, userId: string): (h: Handled<seq<Tweet>>)
    ensures h.store == s
    ensures !IsValidObjectId(userId) <==> h.out == Err(Status(400))
    ensures h.out.Ok? ==> h.out.code == 200 && |h.out.data| == Count(s.tweets, TweetBy(Cast(userId)))
    ensures h.out.Ok? ==> forall i :: 0 <= i < |h.out.data| ==>
      h.out.data[i] in s.tweets && h.out.data[i].owner == Cast(userId)
    ensures h.out.Ok? ==> forall j :: 0 <= j < |s.tweets| && s.tweets[j].owner == Cast(userId) ==>
      s.tweets[j] in h.out.data
    ensures h.out.Ok? ==> Reverse(h.out.data) == Filter(s.tweets, TweetBy(Cast(userId)))
  {
    if !IsValidObjectId(userId) then Fail(s, 400)
    else Handled(s, Ok(200, NewestFirst(s.tweets, TweetBy(Cast(userId)))))
  }

  /** updateTweet: a valid id and some text are required (400); only the caller's tweet is
      found (400 otherwise), and only its content changes. */
  function UpdateTweet(s: Store, caller: Id, tweetId: string, content: Option<string>): (h: Handled<Tweet>)
    ensures !IsValidObjectId(tweetId) || !HasText(content) ==> h == Fail(s, 400)
    ensures IsValidObjectId(tweetId) && Count(s.tweets, TweetOwnedWithId(Cast(tweetId), caller)) == 0 ==> h == Fail(s, 400)
    ensures h.out.Ok? <==>
      IsValidObjectId(tweetId) && HasText(content) && Count(s.tweets, TweetOwnedWithId(Cast(tweetId), caller)) > 0
    ensures h.out.Ok? ==>
      exists i :: (0 <= i < |s.tweets| && s.tweets[i].id == Cast(tweetId) && s.tweets[i].owner == caller
        && h.out == Ok(200, s.tweets[i].(content := Trim(content.value)))
        && h.store == s.(tweets := s.tweets[i := h.out.data]))
  {
    if tweetId == "" || !IsValidObjectId(tweetId) || !HasText(content) then Fail(s, 400)
    else
      var key := TweetOwnedWithId(Cast(tweetId), caller);
      match FirstIndex(s.tweets, key)
      case None => Fail(s, 400)
      case Some(i) =>
        var t := s.tweets[i].(content := Trim(content.value));
        Handled(s.(tweets := s.tweets[i := t]), Ok(200, t))
  }

  /** deleteTweet: a valid id is required (400); someone else's or a missing tweet gives 403;
      the found tweet is deleted by its id and sent back. */
  function DeleteTweet(s: Store, caller: Id, tweetId: string): (h: Handled<Tweet>)
    ensures !IsValidObjectId(tweetId) ==> h == Fail(s, 400)
    ensures IsValidObjectId(tweetId) && Count(s.tweets, TweetOwnedWithId(Cast(tweetId), caller)) == 0 ==> h == Fail(s, 403)
    ensures h.out.Ok? <==> IsValidObjectId(tweetId) && Count(s.tweets, TweetOwnedWithId(Cast(tweetId), caller)) > 0
    ensures h.out.Ok? ==>
      && h.out.code == 200
      && h.out.data.id == Cast(tweetId) && h.out.data.owner == caller && h.out.data in s.tweets
      && h.store == s.(tweets := h.store.tweets)
      && Count(h.store.tweets, TweetWithId(Cast(tweetId))) == Count(s.tweets, TweetWithId(Cast(tweetId))) - 1
      && exists i :: 0 <= i < |s.tweets| && s.tweets[i].id == Cast(tweetId) && h.store.tweets == RemoveAt(s.tweets, i)
  {
    if tweetId == "" || !IsValidObjectId(tweetId) then Fail(s, 400)
    else
      var id := Cast(tweetId);
      match FirstIndex(s.tweets, TweetOwnedWithId(id, caller))
      case None => Fail(s, 403)
      case Some(i) =>
        var j := FirstIndex(s.tweets, TweetWithId(id)).value;
        CountRemoveAt(s.tweets, j, TweetWithId(id));
        Handled(s.(tweets := RemoveAt(s.tweets, j)), Ok(200, s.tweets[i]))
  }

  /** Deleting a tweet one has just posted restores the store and sends that tweet back. */
  lemma {:induction false} CreateThenDeleteTweet(s: Store, caller: Id, content: Option<string>, newId: Id)
    requires CreateTweet(s, caller, content, newId).out.Ok?
    requires IsGeneratedId(newId)
    ensures var h := CreateTweet(s, caller, content, newId);
      DeleteTweet(h.store, caller, newId) == Handled(s, Ok(200, h.out.data))
  {
    var t := CreateTweet(s, caller, content, newId).out.data;
    assert Cast(newId) == newId by { CastCanonical(newId); }
    assert forall j :: 0 <= j < |s.tweets| ==> !TweetWithId(newId)(s.tweets[j]);
    FirstIndexAppendNew(s.tweets, t, TweetWithId(newId));
    FirstIndexAppendNew(s.tweets, t, TweetOwnedWithId(newId, caller));
    RemoveAtAppended(s.tweets, t);
  }

  /** Editing a tweet twice with the same text is the same as editing it once. */
  lemma {:induction false} UpdateTweetIdempotent(s: Store, caller: Id, tweetId: string, content: Option<string>)
    ensures var h1 := UpdateTweet(s, caller, tweetId, content);
      UpdateTweet(h1.store, caller, tweetId, content) == h1
  {
    var h1 := UpdateTweet(s, caller, tweetId, content);
    if h1.out.Ok? {
      var key := TweetOwnedWithId(Cast(tweetId), caller);
      var i := FirstIndex(s.tweets, key).value;
      var ts := s.tweets[i := h1.out.data];
      FirstIndexUpdate(s.tweets, i, h1.out.data, key);
      assert Trim(Trim(content.value)) == Trim(content.value) by { TrimIdempotent(content.value); }
      assert ts[i].(content := Trim(content.value)) == ts[i];
      UpdateSelf(ts, i);
    }
  }

  /** A tweet just posted heads its author's tweet list. */
  lemma {:induction false} NewTweetListedFirst(s: Store, caller: Id, content: Option<string>, newId: Id)
    requires CreateTweet(s, caller, content, newId).out.Ok?
    requires IsGeneratedId(caller)
    ensures var h := CreateTweet(s, caller, content, newId);
      var l := GetUserTweets(h.store, caller);
      l.out.Ok? && |l.out.data| > 0 && l.out.data[0] == h.out.data
  {
    var t := CreateTweet(s, caller, content, newId).out.data;
    assert Cast(caller) == caller by { CastCanonical(caller); }
    NewestFirstAppend(s.tweets, t, TweetBy(caller));
  }
}
