/** Playlists (src/controllers/playlist.controller.js): creation, a user's playlists, adding a
    video with set semantics, reading, removing a video, deletion and partial update. */
module Playlists {
  import opened Base
  import opened Seqs
  import opened Text
  import opened Ids
  import opened Store

  function PlaylistWithId(id: Id): Playlist -> bool {
    (p: Playlist) => p.id == id
  }

  /** The filter `{_id: id, owner: u}`. */
  function PlaylistOwnedWithId(id: Id, u: Id): Playlist -> bool {
    (p: Playlist) => p.id == id && p.owner == u
  }

  function PlaylistBy(u: Id): Playlist -> bool {
    (p: Playlist) => p.owner == u
  }

  function Except(x: Id): Id -> bool {
    (y: Id) => y != x
  }

  /** `$addToSet`: append unless already present. */
  function AddToSet(xs: seq<Id>, x: Id): (r: seq<Id>)
    ensures x in r
    ensures forall y :: y in xs ==> y in r
    ensures forall y :: y in r ==> y in xs || y == x
    ensures x in xs ==> r == xs
    ensures x !in xs ==> r == xs + [x]
  {
    if x in xs then xs else xs + [x]
  }

  /** Dropping every copy of `x` takes exactly the copies of `x` out of the multiset. */
  lemma {:induction false} FilterExceptMultiset(xs: seq<Id>, x: Id)
    ensures multiset(Filter(xs, Except(x))) == multiset(xs)[x := 0]
  {
    if |xs| > 0 {
      var n := |xs| - 1;
      FilterExceptMultiset(xs[..n], x);
      assert xs == xs[..n] + [xs[n]];
      assert multiset(xs) == multiset(xs[..n]) + multiset{xs[n]};
    }
  }

  /** `pull`: drop every copy, keep the order of the rest. The order is stated by `PullConcat`
      and `PullSingle`, which together determine the result. */
  function Pull(xs: seq<Id>, x: Id): (r: seq<Id>)
    ensures x !in r
    ensures forall y :: y in xs && y != x ==> y in r
    ensures forall y :: y in r ==> y in xs
    ensures multiset(r) == multiset(xs)[x := 0]
  {
    FilterExceptMultiset(xs, x);
    var r := Filter(xs, Except(x));
    assert forall i :: 0 <= i < |r| ==> r[i] != x;
    assert forall y :: y in xs && y != x ==> y in r by {
      forall y | y in xs && y != x ensures y in r {
        var j :| 0 <= j < |xs| && xs[j] == y;
        assert Except(x)(xs[j]);
      }
    }
    r
  }

  /** Pulling from a concatenation pulls from each part, so the kept ids stay in order. */
  lemma PullConcat(a: seq<Id>, b: seq<Id>, x: Id)
    ensures Pull(a + b, x) == Pull(a, x) + Pull(b, x)
  {
    FilterConcat(a, b, Except(x));
  }

  /** A single id is dropped exactly when it is the pulled one. */
  lemma PullSingle(y: Id, x: Id)
    ensures Pull([y], x) == if y == x then [] else [y]
  {
    FilterSingle(y, Except(x));
  }

  /** createPlaylist: a name with text is required (400); a missing description makes
      `description.trim()` throw; the playlist is stored trimmed and empty, owned by the caller.
      `newId` is the id the driver generates; if it is already taken the insert fails. */
  function CreatePlaylist(s: Store, caller: Id, name: Option<string>, description: Option<string>, newId: Id): (h: Handled<Playlist>)
    ensures !HasText(name) ==> h == Fail(s, 400)
    ensures HasText(name) && description.None? ==> h == Reject(s, Unspecified)
    ensures h.out.Err? ==> h.store == s
    ensures h.out.Ok? <==> HasText(name) && description.Some? && Count(s.playlists, PlaylistWithId(newId)) == 0
    ensures h.out.Ok? ==>
      && h.out.code == 201
      && h.store == s.(playlists := s.playlists + [h.out.data])
      && h.out.data == Playlist(newId, Trim(name.value), Trim(description.value), [], caller)
      && !IsBlank(h.out.data.name)
  {
    if !HasText(name) then Fail(s, 400)
    else if description.None? then Reject(s, Unspecified)
    else if FirstIndex(s.playlists, PlaylistWithId(newId)).Some? then Reject(s, Unspecified)
    else
      TrimIdempotent(name.value);
      var p := Playlist(newId, Trim(name.value), Trim(description.value), [], caller);
      Handled(s.(playlists := s.playlists + [p]), Ok(201, p))
  }

  /** getUserPlaylist: every playlist of the user, newest first. */
  function GetUserPlaylist(s: Store, userId: string): (h: Handled<seq<Playlist>>)
    ensures h.store == s
    ensures !IsValidObjectId(userId) <==> h.out == Err(Status(400))
    ensures h.out.Ok? ==> h.out.code == 200 && |h.out.data| == Count(s.playlists, PlaylistBy(Cast(userId)))
    ensures h.out.Ok? ==> forall i :: 0 <= i < |h.out.data| ==>
      h.out.data[i] in s.playlists && h.out.data[i].owner == Cast(userId)
    ensures h.out.Ok? ==> forall j :: 0 <= j < |s.playlists| && s.playlists[j].owner == Cast(userId) ==>
      s.playlists[j] in h.out.data
    ensures h.out.Ok? ==> Reverse(h.out.data) == Filter(s.playlists, PlaylistBy(Cast(userId)))
  {
    if !IsValidObjectId(userId) then Fail(s, 400)
    else Handled(s, Ok(200, NewestFirst(s.playlists, PlaylistBy(Cast(userId)))))
  }

  /** addVideoToPlaylist: both ids must be valid (400). The existence check passes the owner as
      a projection, so it finds anyone's playlist (a missing one is an error without a status);
      the owner gate is the update's filter alone: a caller who does not own the playlist gets
      200 with null data and nothing changes. The owner's playlist gets the video once. */
  function AddVideoToPlaylist(s: Store, caller: Id, playlistId: string, videoId: string): (h: Handled<Option<Playlist>>)
    ensures !IsValidObjectId(playlistId) || !IsValidObjectId(videoId) ==> h == Fail(s, 400)
    ensures IsValidObjectId(playlistId) && IsValidObjectId(videoId) && Count(s.playlists, PlaylistWithId(Cast(playlistId))) == 0 ==>
      h == Reject(s, Unspecified)
    ensures (IsValidObjectId(playlistId) && IsValidObjectId(videoId) && Count(s.playlists, PlaylistWithId(Cast(playlistId))) > 0
      && Count(s.playlists, PlaylistOwnedWithId(Cast(playlistId), caller)) == 0) ==>
      h == Handled(s, Ok(200, None))
    ensures h.out.Ok? ==> h.out.code == 200
    ensures h.out.Ok? && h.out.data.Some? ==>
      exists i :: (0 <= i < |s.playlists| && s.playlists[i].id == Cast(playlistId) && s.playlists[i].owner == caller
        && h.out.data.value == s.playlists[i].(videos := AddToSet(s.playlists[i].videos, Cast(videoId)))
        && h.store == s.(playlists := s.playlists[i := h.out.data.value]))
    ensures IsValidObjectId(playlistId) && IsValidObjectId(videoId) && Count(s.playlists, PlaylistOwnedWithId(Cast(playlistId), caller)) > 0 ==>
      h.out.Ok? && h.out.data.Some?
  {
    if !IsValidObjectId(playlistId) || !IsValidObjectId(videoId) then Fail(s, 400)
    else
      var id := Cast(playlistId);
      if FirstIndex(s.playlists, PlaylistWithId(id)).None? then
        assert forall j :: 0 <= j < |s.playlists| ==> !PlaylistOwnedWithId(id, caller)(s.playlists[j]);
        Reject(s, Unspecified)
      else
        match FirstIndex(s.playlists, PlaylistOwnedWithId(id, caller))
        case None => Handled(s, Ok(200, None))
        case Some(i) =>
          var p := s.playlists[i].(videos := AddToSet(s.playlists[i].videos, Cast(videoId)));
          Handled(s.(playlists := s.playlists[i := p]), Ok(200, Some(p)))
  }

  /** getPlaylistById: the caller's own playlist, or 400. */
  function GetPlaylistById(s: Store, caller: Id, playlistId: string): (h: Handled<Playlist>)
    ensures h.store == s
    ensures !IsValidObjectId(playlistId) ==> h.out == Err(Status(400))
    ensures IsValidObjectId(playlistId) && Count(s.playlists, PlaylistOwnedWithId(Cast(playlistId), caller)) == 0 ==>
      h.out == Err(Status(400))
    ensures h.out.Ok? <==> IsValidObjectId(playlistId) && Count(s.playlists, PlaylistOwnedWithId(Cast(playlistId), caller)) > 0
    ensures h.out.Ok? ==>
      h.out.code == 200 && h.out.data in s.playlists && h.out.data.id == Cast(playlistId) && h.out.data.owner == caller
  {
    if !IsValidObjectId(playlistId) then Fail(s, 400)
    else
      match FirstIndex(s.playlists, PlaylistOwnedWithId(Cast(playlistId), caller))
      case None => Fail(s, 400)
      case Some(i) => Handled(s, Ok(200, s.playlists[i]))
  }

  /** removeVideoFromPlaylist: both ids must be valid (400) and the playlist the caller's (400).
      The membership check `includes` compares the raw parameter with the stored ids' canonical
      spelling, while `pull` casts it; a video not in the list gives 400. Every copy is pulled. */
  function RemoveVideoFromPlaylist(s: Store, caller: Id, playlistId: string, videoId: string): (h: Handled<Playlist>)
    ensures !IsValidObjectId(playlistId) || !IsValidObjectId(videoId) ==> h == Fail(s, 400)
    ensures (IsValidObjectId(playlistId) && IsValidObjectId(videoId)
      && Count(s.playlists, PlaylistOwnedWithId(Cast(playlistId), caller)) == 0) ==> h == Fail(s, 400)
    ensures h.out.Err? ==> h.store == s
    ensures h.out.Ok? ==>
      exists i :: (0 <= i < |s.playlists| && s.playlists[i].id == Cast(playlistId) && s.playlists[i].owner == caller
        && videoId in s.playlists[i].videos
        && (forall j :: 0 <= j < i ==> !PlaylistOwnedWithId(Cast(playlistId), caller)(s.playlists[j]))
        && h.out == Ok(200, s.playlists[i].(videos := Pull(s.playlists[i].videos, Cast(videoId))))
        && h.store == s.(playlists := s.playlists[i := h.out.data]))
    ensures (IsValidObjectId(playlistId) && IsValidObjectId(videoId)
      && FirstIndex(s.playlists, PlaylistOwnedWithId(Cast(playlistId), caller)).Some?
      && videoId in s.playlists[FirstIndex(s.playlists, PlaylistOwnedWithId(Cast(playlistId), caller)).value].videos) ==> h.out.Ok?
  {
    if !IsValidObjectId(playlistId) || !IsValidObjectId(videoId) then Fail(s, 400)
    else
      match FirstIndex(s.playlists, PlaylistOwnedWithId(Cast(playlistId), caller))
      case None => Fail(s, 400)
      case Some(i) =>
        if videoId !in s.playlists[i].videos then Fail(s, 400)
        else
          var p := s.playlists[i].(videos := Pull(s.playlists[i].videos, Cast(videoId)));
          Handled(s.(playlists := s.playlists[i := p]), Ok(200, p))
  }

  /** A removal that succeeds leaves no copy of the video in the playlist. */
  lemma RemovedVideoIsGone(s: Store, caller: Id, playlistId: string, videoId: string)
    ensures var h := RemoveVideoFromPlaylist(s, caller, playlistId, videoId);
      h.out.Ok? ==> Cast(videoId) !in h.out.data.videos
  {
  }

  /** Removing a video the caller's playlist does not list, in the spelling given, is refused
      with 400 and changes nothing. */
  lemma RemoveAbsentVideoRefused(s: Store, caller: Id, playlistId: string, videoId: string, i: nat)
    requires IsValidObjectId(playlistId) && IsValidObjectId(videoId)
    requires FirstIndex(s.playlists, PlaylistOwnedWithId(Cast(playlistId), caller)) == Some(i)
    requires videoId !in s.playlists[i].videos
    ensures RemoveVideoFromPlaylist(s, caller, playlistId, videoId) == Fail(s, 400)
  {
  }

  /** deletePlaylist: the caller's own playlist is deleted by its id and the parameter echoed;
      otherwise 400. Videos in it are not touched. */
  function DeletePlaylist(s: Store, caller: Id, playlistId: string): (h: Handled<string>)
    ensures !IsValidObjectId(playlistId) ==> h == Fail(s, 400)
    ensures IsValidObjectId(playlistId) && Count(s.playlists, PlaylistOwnedWithId(Cast(playlistId), caller)) == 0 ==> h == Fail(s, 400)
    ensures h.out.Ok? <==> IsValidObjectId(playlistId) && Count(s.playlists, PlaylistOwnedWithId(Cast(playlistId), caller)) > 0
    ensures h.out.Ok? ==>
      && h.out == Ok(200, playlistId)
      && h.store == s.(playlists := h.store.playlists)
      && Count(h.store.playlists, PlaylistWithId(Cast(playlistId))) == Count(s.playlists, PlaylistWithId(Cast(playlistId))) - 1
      && exists i :: 0 <= i < |s.playlists| && s.playlists[i].id == Cast(playlistId) && h.store.playlists == RemoveAt(s.playlists, i)
  {
    if !IsValidObjectId(playlistId) then Fail(s, 400)
    else
      var id := Cast(playlistId);
      match FirstIndex(s.playlists, PlaylistOwnedWithId(id, caller))
      case None => Fail(s, 400)
      case Some(_) =>
        var j := FirstIndex(s.playlists, PlaylistWithId(id)).value;
        CountRemoveAt(s.playlists, j, PlaylistWithId(id));
        Handled(s.(playlists := RemoveAt(s.playlists, j)), Ok(200, playlistId))
  }

  /** The `$set` document of updatePlaylist: each field with text, trimmed; others kept. */
  function PatchedPlaylist(p: Playlist, name: Option<string>, description: Option<string>): (r: Playlist)
    ensures r.id == p.id && r.owner == p.owner && r.videos == p.videos
    ensures r.name == (if HasText(name) then Trim(name.value) else p.name)
    ensures r.description == (if HasText(description) then Trim(description.value) else p.description)
  {
    var p1 := if HasText(name) then p.(name := Trim(name.value)) else p;
    if HasText(description) then p1.(description := Trim(description.value)) else p1
  }

  /** updatePlaylist: a valid id is required (400); if neither field is truthy the error has no
      status; then only the caller's playlist is found (404), and only its fields with text are
      overwritten. */
  function UpdatePlaylist(s: Store, caller: Id, playlistId: string, name: Option<string>, description: Option<string>): (h: Handled<Playlist>)
    ensures !IsValidObjectId(playlistId) ==> h == Fail(s, 400)
    ensures IsValidObjectId(playlistId) && !Truthy(name) && !Truthy(description) ==> h == Reject(s, Unspecified)
    ensures (IsValidObjectId(playlistId) && (Truthy(name) || Truthy(description))
      && Count(s.playlists, PlaylistOwnedWithId(Cast(playlistId), caller)) == 0) ==> h == Fail(s, 404)
    ensures h.out.Ok? <==>
      IsValidObjectId(playlistId) && (Truthy(name) || Truthy(description))
      && Count(s.playlists, PlaylistOwnedWithId(Cast(playlistId), caller)) > 0
    ensures h.out.Ok? ==>
      exists i :: (0 <= i < |s.playlists| && s.playlists[i].id == Cast(playlistId) && s.playlists[i].owner == caller
        && h.out == Ok(200, PatchedPlaylist(s.playlists[i], name, description))
        && h.store == s.(playlists := s.playlists[i := h.out.data]))
  {
    if !IsValidObjectId(playlistId) then Fail(s, 400)
    else if !Truthy(name) && !Truthy(description) then Reject(s, Unspecified)
    else
      match FirstIndex(s.playlists, PlaylistOwnedWithId(Cast(playlistId), caller))
      case None => Fail(s, 404)
      case Some(i) =>
        var p := PatchedPlaylist(s.playlists[i], name, description);
        Handled(s.(playlists := s.playlists[i := p]), Ok(200, p))
  }

  // ---- properties relating several calls ----

  /** Adding a video a second time changes nothing: `$addToSet` is idempotent. */
  lemma {:induction false} AddVideoIdempotent(s: Store, caller: Id, playlistId: string, videoId: string)
    ensures var h1 := AddVideoToPlaylist(s, caller, playlistId, videoId);
      AddVideoToPlaylist(h1.store, caller, playlistId, videoId) == h1
  {
    var key := PlaylistOwnedWithId(Cast(playlistId), caller);
    if IsValidObjectId(playlistId) && IsValidObjectId(videoId) && FirstIndex(s.playlists, key).Some? {
      var i := FirstIndex(s.playlists, key).value;
      AddFound(s, caller, playlistId, videoId, i);
      var p := s.playlists[i].(videos := AddToSet(s.playlists[i].videos, Cast(videoId)));
      var ps := s.playlists[i := p];
      FirstIndexUpdate(s.playlists, i, p, key);
      AddFound(s.(playlists := ps), caller, playlistId, videoId, i);
      assert ps[i].(videos := AddToSet(ps[i].videos, Cast(videoId))) == ps[i];
      UpdateSelf(ps, i);
    }
  }

  /** A caller who does not own the playlist cannot change any playlist by adding. */
  lemma AddVideoByNonOwnerChangesNothing(s: Store, caller: Id, playlistId: string, videoId: string)
    requires IsValidObjectId(playlistId)
    requires forall j :: 0 <= j < |s.playlists| && s.playlists[j].id == Cast(playlistId) ==> s.playlists[j].owner != caller
    ensures AddVideoToPlaylist(s, caller, playlistId, videoId).store == s
  {
    assert Count(s.playlists, PlaylistOwnedWithId(Cast(playlistId), caller)) == 0;
  }

  /** Adding a video that was not in the owner's playlist and removing it again restores the
      store, for a video id in its canonical spelling. */
  lemma {:induction false} AddThenRemoveVideo(s: Store, caller: Id, playlistId: string, videoId: string)
    requires IsValidObjectId(playlistId) && IsGeneratedId(videoId)
    requires Count(s.playlists, PlaylistOwnedWithId(Cast(playlistId), caller)) > 0
    requires forall j :: 0 <= j < |s.playlists| && PlaylistOwnedWithId(Cast(playlistId), caller)(s.playlists[j]) ==>
      videoId !in s.playlists[j].videos
    ensures var h := AddVideoToPlaylist(s, caller, playlistId, videoId);
      RemoveVideoFromPlaylist(h.store, caller, playlistId, videoId).store == s
  {
    var key := PlaylistOwnedWithId(Cast(playlistId), caller);
    var i := FirstIndex(s.playlists, key).value;
    AddFoundNew(s, caller, playlistId, videoId, i);
    RemoveFoundAdded(s, caller, playlistId, videoId, i);
  }

  /** The store after the video is appended to the playlist at `i`. */
  function AddedStore(s: Store, i: nat, videoId: Id): Store
    requires i < |s.playlists|
  {
    s.(playlists := s.playlists[i := s.playlists[i].(videos := s.playlists[i].videos + [videoId])])
  }

  lemma AddFoundNew(s: Store, caller: Id, playlistId: string, videoId: string, i: nat)
    requires IsValidObjectId(playlistId) && IsGeneratedId(videoId)
    requires FirstIndex(s.playlists, PlaylistOwnedWithId(Cast(playlistId), caller)) == Some(i)
    requires videoId !in s.playlists[i].videos
    ensures AddVideoToPlaylist(s, caller, playlistId, videoId).store == AddedStore(s, i, videoId)
  {
    CastCanonical(videoId);
    AddFound(s, caller, playlistId, videoId, i);
  }

  lemma RemoveFoundAdded(s: Store, caller: Id, playlistId: string, videoId: string, i: nat)
    requires IsValidObjectId(playlistId) && IsGeneratedId(videoId)
    requires FirstIndex(s.playlists, PlaylistOwnedWithId(Cast(playlistId), caller)) == Some(i)
    requires videoId !in s.playlists[i].videos
    ensures RemoveVideoFromPlaylist(AddedStore(s, i, videoId), caller, playlistId, videoId).store == s
  {
    var key := PlaylistOwnedWithId(Cast(playlistId), caller);
    var before := s.playlists[i];
    var s1 := AddedStore(s, i, videoId);
    var ps := s1.playlists;
    CastCanonical(videoId);
    FirstIndexUpdate(s.playlists, i, ps[i], key);
    RemoveFound(s1, caller, playlistId, videoId, i);
    PullAppended(before.videos, videoId);
    UpdateBack(s.playlists, i, ps[i]);
  }

  /** What an add does once the caller's playlist has been found at `i`. */
  lemma AddFound(s: Store, caller: Id, playlistId: string, videoId: string, i: nat)
    requires IsValidObjectId(playlistId) && IsValidObjectId(videoId)
    requires FirstIndex(s.playlists, PlaylistOwnedWithId(Cast(playlistId), caller)) == Some(i)
    ensures var p := s.playlists[i].(videos := AddToSet(s.playlists[i].videos, Cast(videoId)));
      AddVideoToPlaylist(s, caller, playlistId, videoId) == Handled(s.(playlists := s.playlists[i := p]), Ok(200, Some(p)))
  {
    assert PlaylistWithId(Cast(playlistId))(s.playlists[i]);
  }

  /** What a remove does once the caller's playlist has been found at `i`. */
  lemma RemoveFound(s: Store, caller: Id, playlistId: string, videoId: string, i: nat)
    requires IsValidObjectId(playlistId) && IsValidObjectId(videoId)
    requires FirstIndex(s.playlists, PlaylistOwnedWithId(Cast(playlistId), caller)) == Some(i)
    requires videoId in s.playlists[i].videos
    ensures RemoveVideoFromPlaylist(s, caller, playlistId, videoId).store
      == s.(playlists := s.playlists[i := s.playlists[i].(videos := Pull(s.playlists[i].videos, Cast(videoId)))])
  {
  }

  lemma PullAppended(xs: seq<Id>, x: Id)
    requires x !in xs
    ensures Pull(xs + [x], x) == xs
  {
    FilterAppendOther(xs, x, Except(x));
    FilterAll(xs, Except(x));
  }

  /** Updating a playlist twice with the same fields is the same as updating it once. */
  lemma {:induction false} UpdatePlaylistIdempotent(s: Store, caller: Id, playlistId: string, name: Option<string>, description: Option<string>)
    ensures var h1 := UpdatePlaylist(s, caller, playlistId, name, description);
      UpdatePlaylist(h1.store, caller, playlistId, name, description) == h1
  {
    var key := PlaylistOwnedWithId(Cast(playlistId), caller);
    if IsValidObjectId(playlistId) && (Truthy(name) || Truthy(description)) && FirstIndex(s.playlists, key).Some? {
      var i := FirstIndex(s.playlists, key).value;
      UpdateFound(s, caller, playlistId, name, description, i);
      var p := PatchedPlaylist(s.playlists[i], name, description);
      var ps := s.playlists[i := p];
      FirstIndexUpdate(s.playlists, i, p, key);
      UpdateFound(s.(playlists := ps), caller, playlistId, name, description, i);
      if HasText(name) { TrimIdempotent(name.value); }
      if HasText(description) { TrimIdempotent(description.value); }
      assert PatchedPlaylist(ps[i], name, description) == ps[i];
      UpdateSelf(ps, i);
    }
  }

  /** What an update does once the caller's playlist has been found at `i`. */
  lemma UpdateFound(s: Store, caller: Id, playlistId: string, name: Option<string>, description: Option<string>, i: nat)
    requires IsValidObjectId(playlistId) && (Truthy(name) || Truthy(description))
    requires FirstIndex(s.playlists, PlaylistOwnedWithId(Cast(playlistId), caller)) == Some(i)
    ensures var p := PatchedPlaylist(s.playlists[i], name, description);
      UpdatePlaylist(s, caller, playlistId, name, description) == Handled(s.(playlists := s.playlists[i := p]), Ok(200, p))
  {
  }

  /** A playlist just created heads its owner's playlist list. */
  lemma {:induction false} NewPlaylistListedFirst(s: Store, caller: Id, name: Option<string>, description: Option<string>, newId: Id)
    requires CreatePlaylist(s, caller, name, description, newId).out.Ok?
    requires IsGeneratedId(caller)
    ensures var h := CreatePlaylist(s, caller, name, description, newId);
      var l := GetUserPlaylist(h.store, caller);
      l.out.Ok? && |l.out.data| > 0 && l.out.data[0] == h.out.data
  {
    var p := CreatePlaylist(s, caller, name, description, newId).out.data;
    assert Cast(caller) == caller by { CastCanonical(caller); }
    NewestFirstAppend(s.playlists, p, PlaylistBy(caller));
  }

  /** A playlist just created is found by its owner. */
  lemma {:induction false} CreatedPlaylistFound(s: Store, caller: Id, name: Option<string>, description: Option<string>, newId: Id)
    requires CreatePlaylist(s, caller, name, description, newId).out.Ok?
    requires IsGeneratedId(newId)
    ensures var h := CreatePlaylist(s, caller, name, description, newId);
      GetPlaylistById(h.store, caller, newId) == Handled(h.store, Ok(200, h.out.data))
  {
    var p := CreatePlaylist(s, caller, name, description, newId).out.data;
    assert Cast(newId) == newId by { CastCanonical(newId); }
    assert forall j :: 0 <= j < |s.playlists| ==> !PlaylistWithId(newId)(s.playlists[j]);
    assert forall j :: 0 <= j < |s.playlists| ==> !PlaylistOwnedWithId(newId, caller)(s.playlists[j]);
    FirstIndexAppendNew(s.playlists, p, PlaylistOwnedWithId(newId, caller));
  }

  /** Deleting a playlist one has just created restores the store and echoes its id. */
  lemma {:induction false} CreateThenDeletePlaylist(s: Store, caller: Id, name: Option<string>, description: Option<string>, newId: Id)
    requires CreatePlaylist(s, caller, name, description, newId).out.Ok?
    requires IsGeneratedId(newId)
    ensures var h := CreatePlaylist(s, caller, name, description, newId);
      DeletePlaylist(h.store, caller, newId) == Handled(s, Ok(200, newId))
  {
    var p := CreatePlaylist(s, caller, name, description, newId).out.data;
    assert Cast(newId) == newId by { CastCanonical(newId); }
    assert forall j :: 0 <= j < |s.playlists| ==> !PlaylistWithId(newId)(s.playlists[j]);
    assert forall j :: 0 <= j < |s.playlists| ==> !PlaylistOwnedWithId(newId, caller)(s.playlists[j]);
    FirstIndexAppendNew(s.playlists, p, PlaylistWithId(newId));
    FirstIndexAppendNew(s.playlists, p, PlaylistOwnedWithId(newId, caller));
    RemoveAtAppended(s.playlists, p);
  }
}
