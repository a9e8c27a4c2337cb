/** Comments (src/controllers/comment.controller.js): the paged comment list of a video, and
    adding, editing and deleting one's own comment. */
module Comments {
  import opened Base
  import opened Seqs
  import opened Text
  import opened Ids
  import opened Store
  import opened Paging

  function CommentWithId(id: Id): Comment -> bool {
    (c: Comment) => c.id == id
  }

  /** The filter `{_id: id, owner: u}` of the edit and delete handlers. */
  function CommentOwnedWithId(id: Id, u: Id): Comment -> bool {
    (c: Comment) => c.id == id && c.owner == u
  }

  /** The filter `{video: v}`. */
  function OnVideo(v: Id): Comment -> bool {
    (c: Comment) => c.video == v
  }

  /** getVideoComments: a page of the video's comments (everyone's), newest first. The video
      itself is not looked up, so an unknown video has an empty list. */
  function GetVideoComments(s: Store, videoId: string, page: Option<nat>, limit: Option<nat>): (h: Handled<seq<Comment>>)
    ensures h.store == s
    ensures !IsValidObjectId(videoId) ==> h.out == Err(Status(400))
    ensures IsValidObjectId(videoId) ==>
      (h.out == Err(Unspecified) <==> OrDefault(page, DefaultPage) == 0 && OrDefault(limit, DefaultLimit) > 0)
    ensures h.out.Ok? ==> h.out.code == 200
    ensures h.out.Ok? ==> forall i :: 0 <= i < |h.out.data| ==>
      h.out.data[i] in s.comments && h.out.data[i].video == Cast(videoId)
    ensures h.out.Ok? && OrDefault(limit, DefaultLimit) > 0 ==> |h.out.data| <= OrDefault(limit, DefaultLimit)
    ensures h.out.Ok? ==> |h.out.data| == PageLength(Count(s.comments, OnVideo(Cast(videoId))),
      Skip(OrDefault(page, DefaultPage), OrDefault(limit, DefaultLimit)), OrDefault(limit, DefaultLimit))
    ensures h.out.Ok? ==>
      var rows := NewestFirst(s.comments, OnVideo(Cast(videoId)));
      var skip := Skip(OrDefault(page, DefaultPage), OrDefault(limit, DefaultLimit));
      forall i :: 0 <= i < |h.out.data| ==> 0 <= skip + i < |rows| && h.out.data[i] == rows[skip + i]
  {
    if !IsValidObjectId(videoId) then Fail(s, 400)
    else
      match PageOf(s.comments, OnVideo(Cast(videoId)), OrDefault(page, DefaultPage), OrDefault(limit, DefaultLimit))
      case None => Reject(s, Unspecified)
      case Some(window) => Handled(s, Ok(200, window))
  }

  /** addComment: a valid video id (400) and some text (400) are required; the comment is
      stored trimmed, owned by the caller (201). Whether the video exists is not checked.
      `newId` is the id the driver generates; if it is already taken the insert fails. */
  function AddComment(s: Store, caller: Id, videoId: string, content: Option<string>, newId: Id): (h: Handled<Comment>)
    ensures !IsValidObjectId(videoId) ==> h == Fail(s, 400)
    ensures IsValidObjectId(videoId) && !HasText(content) ==> h == Fail(s, 400)
    ensures h.out.Err? ==> h.store == s
    ensures h.out.Ok? <==> IsValidObjectId(videoId) && HasText(content) && Count(s.comments, CommentWithId(newId)) == 0
    ensures h.out.Ok? ==>
      && h.out.code == 201
      && h.store == s.(comments := s.comments + [h.out.data])
      && h.out.data == Comment(newId, Trim(content.value), Cast(videoId), caller)
      && !IsBlank(h.out.data.content)
  {
    if !IsValidObjectId(videoId) then Fail(s, 400)
    else if !HasText(content) then Fail(s, 400)
    else if FirstIndex(s.comments, CommentWithId(newId)).Some? then Reject(s, Unspecified)
    else
      TrimIdempotent(content.value);
      var c := Comment(newId, Trim(content.value), Cast(videoId), caller);
      Handled(s.(comments := s.comments + [c]), Ok(201, c))
  }

  /** updateComment: a valid id (400) and some text (400) are required; only the caller's
      comment is found (400 otherwise), and only its content changes. */
  function UpdateComment(s: Store, caller: Id, commentId: string, content: Option<string>): (h: Handled<Comment>)
    ensures !IsValidObjectId(commentId) || !HasText(content) ==> h == Fail(s, 400)
    ensures IsValidObjectId(commentId) && Count(s.comments, CommentOwnedWithId(Cast(commentId), caller)) == 0 ==> h == Fail(s, 400)
    ensures h.out.Ok? <==>
      IsValidObjectId(commentId) && HasText(content) && Count(s.comments, CommentOwnedWithId(Cast(commentId), caller)) > 0
    ensures h.out.Ok? ==>
      exists i :: (0 <= i < |s.comments| && s.comments[i].id == Cast(commentId) && s.comments[i].owner == caller
        && h.out == Ok(200, s.comments[i].(content := Trim(content.value)))
        && h.store == s.(comments := s.comments[i := h.out.data]))
  {
    if !IsValidObjectId(commentId) || !HasText(content) then Fail(s, 400)
    else
      match FirstIndex(s.comments, CommentOwnedWithId(Cast(commentId), caller))
      case None => Fail(s, 400)
      case Some(i) =>
        var c := s.comments[i].(content := Trim(content.value));
        Handled(s.(comments := s.comments[i := c]), Ok(200, c))
  }

  /** deleteComment: a valid id is required (400); someone else's or a missing comment gives
      400; the found comment is deleted by its id (data null). */
  function DeleteComment(s: Store, caller: Id, commentId: string): (h: Handled<()>)
    ensures !IsValidObjectId(commentId) ==> h == Fail(s, 400)
    ensures IsValidObjectId(commentId) && Count(s.comments, CommentOwnedWithId(Cast(commentId), caller)) == 0 ==> h == Fail(s, 400)
    ensures h.out.Ok? <==> IsValidObjectId(commentId) && Count(s.comments, CommentOwnedWithId(Cast(commentId), caller)) > 0
    ensures h.out.Ok? ==>
      && h.out.code == 200
      && h.store == s.(comments := h.store.comments)
      && Count(h.store.comments, CommentWithId(Cast(commentId))) == Count(s.comments, CommentWithId(Cast(commentId))) - 1
      && exists i :: 0 <= i < |s.comments| && s.comments[i].id == Cast(commentId) && h.store.comments == RemoveAt(s.comments, i)
  {
    if !IsValidObjectId(commentId) then Fail(s, 400)
    else
      var id := Cast(commentId);
      match FirstIndex(s.comments, CommentOwnedWithId(id, caller))
      case None => Fail(s, 400)
      case Some(_) =>
        var j := FirstIndex(s.comments, CommentWithId(id)).value;
        CountRemoveAt(s.comments, j, CommentWithId(id));
        Handled(s.(comments := RemoveAt(s.comments, j)), Ok(200, ()))
  }

  /** Deleting a comment one has just added restores the store. */
  lemma {:induction false} AddThenDeleteComment(s: Store, caller: Id, videoId: string, content: Option<string>, newId: Id)
    requires AddComment(s, caller, videoId, content, newId).out.Ok?
    requires IsGeneratedId(newId)
    ensures DeleteComment(AddComment(s, caller, videoId, content, newId).store, caller, newId) == Handled(s, Ok(200, ()))
  {
    var c := AddComment(s, caller, videoId, content, newId).out.data;
    assert Cast(newId) == newId by { CastCanonical(newId); }
    assert forall j :: 0 <= j < |s.comments| ==> !CommentWithId(newId)(s.comments[j]);
    FirstIndexAppendNew(s.comments, c, CommentWithId(newId));
    FirstIndexAppendNew(s.comments, c, CommentOwnedWithId(newId, caller));
    RemoveAtAppended(s.comments, c);
  }

  /** Editing a comment twice with the same text is the same as editing it once. */
  lemma {:induction false} UpdateCommentIdempotent(s: Store, caller: Id, commentId: string, content: Option<string>)
    ensures var h1 := UpdateComment(s, caller, commentId, content);
      UpdateComment(h1.store, caller, commentId, content) == h1
  {
    var h1 := UpdateComment(s, caller, commentId, content);
    if h1.out.Ok? {
      var key := CommentOwnedWithId(Cast(commentId), caller);
      var i := FirstIndex(s.comments, key).value;
      var cs := s.comments[i := h1.out.data];
      FirstIndexUpdate(s.comments, i, h1.out.data, key);
      assert Trim(Trim(content.value)) == Trim(content.value) by { TrimIdempotent(content.value); }
      assert cs[i].(content := Trim(content.value)) == cs[i];
      UpdateSelf(cs, i);
    }
  }

  /** A comment just added heads the first page of its video's comments. */
  lemma {:induction false} NewCommentListedFirst(s: Store, caller: Id, videoId: string, content: Option<string>,
                                                 newId: Id, limit: Option<nat>)
    requires AddComment(s, caller, videoId, content, newId).out.Ok?
    ensures var h := AddComment(s, caller, videoId, content, newId);
      var l := GetVideoComments(h.store, videoId, None, limit);
      l.out.Ok? && |l.out.data| > 0 && l.out.data[0] == h.out.data
  {
    var h := AddComment(s, caller, videoId, content, newId);
    var c := h.out.data;
    var key := OnVideo(Cast(videoId));
    assert h.store.comments == s.comments + [c];
    assert key(c);
    NewestFirstAppend(s.comments, c, key);
    var rows := NewestFirst(h.store.comments, key);
    assert rows[0] == c;
    var lim := OrDefault(limit, DefaultLimit);
    assert Skip(DefaultPage, lim) == 0;
    assert Paginate(rows, DefaultPage, lim) == Some(Window(rows, 0, lim));
    assert |Window(rows, 0, lim)| > 0;
  }
}
