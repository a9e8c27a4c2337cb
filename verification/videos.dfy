/** Videos (src/controllers/video.controller.js): the public listing, publishing, the publish
    toggle, deletion with the media host's public ids, partial update, and draft visibility. */
module Videos {
  import opened Base
  import opened Seqs
  import opened Text
  import opened Ids
  import opened Store
  import opened Paging

  function WithId(id: Id): Video -> bool {
    (v: Video) => v.id == id
  }

  /** The filter `{_id: id, owner: u}` every owner-gated video handler uses. */
  function OwnedWithId(id: Id, u: Id): Video -> bool {
    (v: Video) => v.id == id && v.owner == u
  }

  function OwnedBy(u: Id): Video -> bool {
    (v: Video) => v.owner == u
  }

  ghost predicate UniqueVideoIds(videos: seq<Video>) {
    forall i, j :: 0 <= i < j < |videos| ==> videos[i].id != videos[j].id
  }

  // ---- getAllVideos ----

  /** The filter getAllVideos builds: published; when `query` is truthy, title or description
      matches it (`matches` stands for the case-insensitive `$regex`); when `userId` is truthy
      and a valid id, owned by it. An invalid `userId` is ignored. */
  function ListingFilter(query: Option<string>, userId: Option<string>, matches: (string, string) -> bool): Video -> bool {
    (v: Video) =>
      && v.isPublished
      && (Truthy(query) ==> matches(query.value, v.title) || matches(query.value, v.description))
      && (Truthy(userId) && IsValidObjectId(userId.value) ==> v.owner == Cast(userId.value))
  }

  /** getAllVideos: a page of the matching published videos, newest first. */
  function GetAllVideos(s: Store, page: Option<nat>, limit: Option<nat>, query: Option<string>,
                        userId: Option<string>, matches: (string, string) -> bool): (h: Handled<seq<Video>>)
    ensures h.store == s
    ensures OrDefault(page, DefaultPage) == 0 && OrDefault(limit, DefaultLimit) > 0 <==> h.out == Err(Unspecified)
    ensures h.out.Ok? ==> h.out.code == 200
    ensures h.out.Ok? ==> forall i :: 0 <= i < |h.out.data| ==>
      && h.out.data[i] in s.videos
      && ListingFilter(query, userId, matches)(h.out.data[i])
    ensures h.out.Ok? && OrDefault(limit, DefaultLimit) > 0 ==> |h.out.data| <= OrDefault(limit, DefaultLimit)
    ensures h.out.Ok? ==> |h.out.data| == PageLength(Count(s.videos, ListingFilter(query, userId, matches)),
      Skip(OrDefault(page, DefaultPage), OrDefault(limit, DefaultLimit)), OrDefault(limit, DefaultLimit))
    ensures h.out.Ok? ==>
      var rows := NewestFirst(s.videos, ListingFilter(query, userId, matches));
      var skip := Skip(OrDefault(page, DefaultPage), OrDefault(limit, DefaultLimit));
      forall i :: 0 <= i < |h.out.data| ==> 0 <= skip + i < |rows| && h.out.data[i] == rows[skip + i]
  {
    match PageOf(s.videos, ListingFilter(query, userId, matches), OrDefault(page, DefaultPage), OrDefault(limit, DefaultLimit))
    case None => Reject(s, Unspecified)
    case Some(window) => Handled(s, Ok(200, window))
  }

  /** Every video getAllVideos lists is published, and owned by `userId` when that is a valid id. */
  lemma ListedVideosArePublished(s: Store, page: Option<nat>, limit: Option<nat>, query: Option<string>,
                                 userId: Option<string>, matches: (string, string) -> bool, i: nat)
    requires var h := GetAllVideos(s, page, limit, query, userId, matches); h.out.Ok? && i < |h.out.data|
    ensures var v := GetAllVideos(s, page, limit, query, userId, matches).out.data[i];
      && v.isPublished
      && (Truthy(userId) && IsValidObjectId(userId.value) ==> v.owner == Cast(userId.value))
  {
  }

  // ---- publishAVideo ----

  /** The local paths multer stored for the two expected files, when `req.files` exists. */
  datatype VideoFiles = VideoFiles(video: Option<string>, thumbnail: Option<string>)

  predicate FilesPresent(files: Option<VideoFiles>) {
    files.Some? && files.value.video.Some? && files.value.thumbnail.Some?
  }

  /** The media host answered with a truthy url. */
  predicate Uploaded(u: Option<Upload>) {
    u.Some? && u.value.url != ""
  }

  /** publishAVideo: title and description must have text (400), both files must be present
      (400), both uploads must give a url (500), and the video upload must report a duration,
      which the schema requires; the video is stored with trimmed text, the uploaded urls and
      duration, the default flags and the caller as owner (201). `newId` is the id the driver
      generates; if it is already taken the insert fails. */
  function PublishAVideo(s: Store, caller: Id, title: Option<string>, description: Option<string>,
                         files: Option<VideoFiles>, videoUpload: Option<Upload>, thumbnailUpload: Option<Upload>,
                         newId: Id): (h: Handled<Video>)
    ensures !HasText(title) || !HasText(description) ==> h == Fail(s, 400)
    ensures HasText(title) && HasText(description) && !FilesPresent(files) ==> h == Fail(s, 400)
    ensures (HasText(title) && HasText(description) && FilesPresent(files)
      && !(Uploaded(videoUpload) && Uploaded(thumbnailUpload))) ==> h == Fail(s, 500)
    ensures (HasText(title) && HasText(description) && FilesPresent(files) && Uploaded(videoUpload) && Uploaded(thumbnailUpload)
      && videoUpload.value.duration.None?) ==> h == Reject(s, Unspecified)
    ensures h.out.Err? ==> h.store == s
    ensures h.out.Ok? <==>
      HasText(title) && HasText(description) && FilesPresent(files) && Uploaded(videoUpload) && Uploaded(thumbnailUpload)
      && videoUpload.value.duration.Some? && Count(s.videos, WithId(newId)) == 0
    ensures h.out.Ok? ==>
      && h.out.code == 201
      && h.store == s.(videos := s.videos + [h.out.data])
      && h.out.data.id == newId && h.out.data.owner == caller
      && h.out.data.title == Trim(title.value) && !IsBlank(h.out.data.title)
      && h.out.data.description == Trim(description.value) && !IsBlank(h.out.data.description)
      && h.out.data.videoFile == videoUpload.value.url && h.out.data.thumbnail == thumbnailUpload.value.url
      && h.out.data.duration == videoUpload.value.duration.value
      && h.out.data.isPublished && h.out.data.views == 0
  {
    if !HasText(title) || !HasText(description) then Fail(s, 400)
    else if !FilesPresent(files) then Fail(s, 400)
    else if !(Uploaded(videoUpload) && Uploaded(thumbnailUpload)) then Fail(s, 500)
    // the schema requires a duration, which the host reports only for a file it stores as a video
    else if videoUpload.value.duration.None? then Reject(s, Unspecified)
    else if FirstIndex(s.videos, WithId(newId)).Some? then Reject(s, Unspecified)
    else
      TrimIdempotent(title.value);
      TrimIdempotent(description.value);
      var v := Video(newId, videoUpload.value.url, thumbnailUpload.value.url, Trim(title.value),
                     Trim(description.value), videoUpload.value.duration.value, 0, true, caller);
      Handled(s.(videos := s.videos + [v]), Ok(201, v))
  }

  // ---- togglePublishStatus ----

  /** togglePublishStatus: the caller's own video has its published flag flipped; any other
      video id gets 404. */
  function TogglePublishStatus(s: Store, caller: Id, videoId: string): (h: Handled<Video>)
    ensures !IsValidObjectId(videoId) ==> h == Fail(s, 400)
    ensures IsValidObjectId(videoId) && Count(s.videos, OwnedWithId(Cast(videoId), caller)) == 0 ==> h == Fail(s, 404)
    ensures h.out.Ok? ==> h.out.code == 200 && h.out.data.owner == caller && h.out.data.id == Cast(videoId)
    ensures h.out.Ok? ==>
      exists i :: (0 <= i < |s.videos| && s.videos[i].id == Cast(videoId) && s.videos[i].owner == caller
        && h.out.data == s.videos[i].(isPublished := !s.videos[i].isPublished)
        && h.store == s.(videos := s.videos[i := h.out.data]))
    ensures IsValidObjectId(videoId) && Count(s.videos, OwnedWithId(Cast(videoId), caller)) > 0 ==> h.out.Ok?
  {
    if !IsValidObjectId(videoId) then Fail(s, 400)
    else
      match FirstIndex(s.videos, OwnedWithId(Cast(videoId), caller))
      case None => Fail(s, 404)
      case Some(i) =>
        var v := s.videos[i].(isPublished := !s.videos[i].isPublished);
        Handled(s.(videos := s.videos[i := v]), Ok(200, v))
  }

  /** The publish toggle is an involution: applying it twice restores the store. */
  lemma {:induction false} TogglePublishTwice(s: Store, caller: Id, videoId: string)
    ensures var h1 := TogglePublishStatus(s, caller, videoId);
      TogglePublishStatus(h1.store, caller, videoId).store == s
  {
    var h1 := TogglePublishStatus(s, caller, videoId);
    if h1.out.Ok? {
      var key := OwnedWithId(Cast(videoId), caller);
      var i := FirstIndex(s.videos, key).value;
      var vs := s.videos[i := h1.out.data];
      FirstIndexUpdate(s.videos, i, h1.out.data, key);
      UpdateBack(s.videos, i, h1.out.data);
    }
  }

  // ---- deleteVideo ----

  /** The fields deleteVideo echoes back. */
  datatype VideoDetails = VideoDetails(videoFile: string, thumbnail: string, title: string, description: string)

  /** The Cloudinary public id of a stored media url: drop any query string, keep the last path
      segment, keep the text before its first dot. */
  function GetPublicId(url: string): (r: string)
    ensures '/' !in r && '.' !in r && '?' !in r
  {
    var path := BeforeFirst(url, '?');
    var file := AfterLast(path, '/');
    var r := BeforeFirst(file, '.');
    assert forall c :: c in r ==> c in file;
    assert forall c :: c in file ==> c in path;
    r
  }

  /** The same computation as updateVideo writes it for the old thumbnail: the query string is
      not removed first. */
  function ThumbnailPublicId(url: string): (r: string)
    ensures '/' !in r && '.' !in r
  {
    BeforeFirst(AfterLast(url, '/'), '.')
  }

  lemma NoQueryMark(dir: string, file: string)
    requires '?' !in dir && '?' !in file
    ensures '?' !in dir + "/" + file
  {
    var url := dir + "/" + file;
    forall k | 0 <= k < |url| ensures url[k] != '?' {
      if k < |dir| { assert url[k] == dir[k]; }
      else if k == |dir| { assert url[k] == '/'; }
      else { assert url[k] == file[k - |dir| - 1]; }
    }
  }

  lemma FileOfPath(dir: string, file: string)
    requires '/' !in file
    ensures AfterLast(dir + "/" + file, '/') == file
  {
    var url := dir + "/" + file;
    assert url[|url| - |file|..] == file;
    assert url[|url| - |file| - 1] == '/';
    AfterLastUnique(url, '/', file);
  }

  lemma StemOfFile(id: string, ext: string)
    requires '.' !in id
    ensures BeforeFirst(id + "." + ext, '.') == id
  {
    var file := id + "." + ext;
    assert file[..|id|] == id;
    assert file[|id|] == '.';
    BeforeFirstUnique(file, '.', id);
  }

  /** A Cloudinary delivery url `<dir>/<id>.<ext>` without a query string yields `<id>`, e.g.
      `https://res.cloudinary.com/demo/video/upload/v123456789/my_video_abc123.mp4` yields
      `my_video_abc123`. */
  lemma {:induction false} PublicIdOfUploadUrl(dir: string, id: string, ext: string)
    requires '?' !in dir
    requires '?' !in id && '/' !in id && '.' !in id
    requires '?' !in ext && '/' !in ext
    ensures GetPublicId(dir + "/" + id + "." + ext) == id
  {
    var file := id + "." + ext;
    var url := dir + "/" + file;
    assert dir + "/" + id + "." + ext == url;
    assert '?' !in file && '/' !in file;
    NoQueryMark(dir, file);
    BeforeFirstUnique(url, '?', url);
    FileOfPath(dir, file);
    StemOfFile(id, ext);
  }

  /** A query string does not change the public id. */
  lemma {:induction false} PublicIdIgnoresQuery(url: string, query: string)
    requires '?' !in url
    ensures GetPublicId(url + "?" + query) == GetPublicId(url)
  {
    BeforeFirstUnique(url + "?" + query, '?', url);
    BeforeFirstUnique(url, '?', url);
  }

  /** On a url without a query string the two spellings agree. */
  lemma {:induction false} ThumbnailPublicIdAgrees(url: string)
    requires '?' !in url
    ensures ThumbnailPublicId(url) == GetPublicId(url)
  {
    BeforeFirstUnique(url, '?', url);
  }

  /** deleteVideo: only the owner's video can be found (else 404); the first video with that id
      is then deleted, and nothing that refers to it (likes, comments, playlists) is touched. */
  function DeleteVideo(s: Store, caller: Id, videoId: string): (h: Handled<VideoDetails>)
    ensures !IsValidObjectId(videoId) ==> h == Fail(s, 400)
    ensures IsValidObjectId(videoId) && Count(s.videos, OwnedWithId(Cast(videoId), caller)) == 0 ==> h == Fail(s, 404)
    ensures IsValidObjectId(videoId) && Count(s.videos, OwnedWithId(Cast(videoId), caller)) > 0 ==> h.out.Ok?
    ensures h.out.Ok? ==>
      && h.out.code == 200
      && h.store == s.(videos := h.store.videos)
      && Count(h.store.videos, WithId(Cast(videoId))) == Count(s.videos, WithId(Cast(videoId))) - 1
      && exists i :: 0 <= i < |s.videos| && s.videos[i].id == Cast(videoId) && h.store.videos == RemoveAt(s.videos, i)
  {
    if !IsValidObjectId(videoId) then Fail(s, 400)
    else
      var id := Cast(videoId);
      match FirstIndex(s.videos, OwnedWithId(id, caller))
      case None => Fail(s, 404)
      case Some(i) =>
        var v := s.videos[i];
        var j := FirstIndex(s.videos, WithId(id)).value;
        CountRemoveAt(s.videos, j, WithId(id));
        Handled(s.(videos := RemoveAt(s.videos, j)),
                Ok(200, VideoDetails(v.videoFile, v.thumbnail, v.title, v.description)))
  }

  /** With unique ids the owner's delete removes exactly the named video. */
  lemma {:induction false} DeleteVideoRemovesIt(s: Store, caller: Id, videoId: string)
    requires UniqueVideoIds(s.videos)
    requires DeleteVideo(s, caller, videoId).out.Ok?
    ensures var h := DeleteVideo(s, caller, videoId);
      && Count(h.store.videos, WithId(Cast(videoId))) == 0
      && exists i :: 0 <= i < |s.videos| && s.videos[i].id == Cast(videoId) && s.videos[i].owner == caller
           && h.store.videos == RemoveAt(s.videos, i)
  {
    var id := Cast(videoId);
    var i := FirstIndex(s.videos, OwnedWithId(id, caller)).value;
    var j := FirstIndex(s.videos, WithId(id)).value;
    assert i == j;
    assert Count(s.videos, WithId(id)) <= 1 by {
      UniqueCount(s.videos, id);
    }
  }

  lemma {:induction false} UniqueCount(videos: seq<Video>, id: Id)
    requires UniqueVideoIds(videos)
    ensures Count(videos, WithId(id)) <= 1
  {
    if |videos| > 0 {
      var n := |videos| - 1;
      UniqueCount(videos[..n], id);
      if videos[n].id == id {
        assert Count(videos[..n], WithId(id)) == 0 by {
          assert forall j :: 0 <= j < n ==> videos[..n][j] == videos[j];
        }
      }
    }
  }

  // ---- updateVideo ----

  /** The url of a replacement thumbnail, when a file was sent. */
  function NewThumbnail(file: Option<string>, upload: Option<Upload>): Option<string> {
    if file.Some? && upload.Some? then Some(upload.value.url) else None
  }

  /** Every video in the list has the non-empty title and description the schema demands. */
  predicate Described(videos: seq<Video>)
  {
    forall j :: 0 <= j < |videos| ==> videos[j].title != "" && videos[j].description != ""
  }

  /** The video after `if (title) video.title = title.trim()`, the same for the description,
      and the thumbnail replacement: only supplied fields change, and never the video file. */
  function Patched(v: Video, title: Option<string>, description: Option<string>, thumbnail: Option<string>): (r: Video)
    ensures r.id == v.id && r.owner == v.owner && r.videoFile == v.videoFile
    ensures r.duration == v.duration && r.views == v.views && r.isPublished == v.isPublished
    ensures r.title == (if Truthy(title) then Trim(title.value) else v.title)
    ensures r.description == (if Truthy(description) then Trim(description.value) else v.description)
    ensures r.thumbnail == (if thumbnail.Some? then thumbnail.value else v.thumbnail)
  {
    var v1 := if thumbnail.Some? then v.(thumbnail := thumbnail.value) else v;
    var v2 := if Truthy(title) then v1.(title := Trim(title.value)) else v1;
    if Truthy(description) then v2.(description := Trim(description.value)) else v2
  }

  /** updateVideo: some text or a new thumbnail is required (400); only the caller's video is
      found (404); a new thumbnail must upload (500); then the video is patched. A truthy but
      blank title or description trims to "" and the save fails the schema's `required` check. */
  function UpdateVideo(s: Store, caller: Id, videoId: string, title: Option<string>, description: Option<string>,
                       thumbnailFile: Option<string>, thumbnailUpload: Option<Upload>): (h: Handled<Video>)
    ensures !IsValidObjectId(videoId) ==> h == Fail(s, 400)
    ensures IsValidObjectId(videoId) && !HasText(title) && !HasText(description) && thumbnailFile.None? ==> h == Fail(s, 400)
    ensures (IsValidObjectId(videoId) && (HasText(title) || HasText(description) || thumbnailFile.Some?)
      && Count(s.videos, OwnedWithId(Cast(videoId), caller)) == 0) ==> h == Fail(s, 404)
    ensures (IsValidObjectId(videoId) && (HasText(title) || HasText(description) || thumbnailFile.Some?)
      && Count(s.videos, OwnedWithId(Cast(videoId), caller)) > 0
      && thumbnailFile.Some? && !Uploaded(thumbnailUpload)) ==> h == Fail(s, 500)
    ensures h.out.Err? ==> h.store == s
    ensures h.out.Ok? ==> h.out.code == 200 && h.out.data.title != "" && h.out.data.description != ""
    ensures h.out.Ok? ==> thumbnailFile.Some? ==> Uploaded(thumbnailUpload)
    ensures h.out.Ok? ==>
      exists i :: (0 <= i < |s.videos| && s.videos[i].id == Cast(videoId) && s.videos[i].owner == caller
        && h.out.data == Patched(s.videos[i], title, description, NewThumbnail(thumbnailFile, thumbnailUpload))
        && h.store == s.(videos := s.videos[i := h.out.data]))
    ensures IsValidObjectId(videoId) && Truthy(title) && IsBlank(title.value) ==> h.out.Err?
    ensures IsValidObjectId(videoId) && Truthy(description) && IsBlank(description.value) ==> h.out.Err?
  {
    if !IsValidObjectId(videoId) then Fail(s, 400)
    else if !HasText(title) && !HasText(description) && thumbnailFile.None? then Fail(s, 400)
    else
      match FirstIndex(s.videos, OwnedWithId(Cast(videoId), caller))
      case None => Fail(s, 404)
      case Some(i) =>
        if thumbnailFile.Some? && !Uploaded(thumbnailUpload) then Fail(s, 500)
        else
          var v := Patched(s.videos[i], title, description, NewThumbnail(thumbnailFile, thumbnailUpload));
          if v.title == "" || v.description == "" then Reject(s, Unspecified)
          else Handled(s.(videos := s.videos[i := v]), Ok(200, v))
  }

  /** An update of one's own video succeeds once the request carries something, any new thumbnail
      uploads, no given text is blank, and the stored videos satisfy the schema. */
  lemma UpdateVideoSucceeds(s: Store, caller: Id, videoId: string, title: Option<string>, description: Option<string>,
                            thumbnailFile: Option<string>, thumbnailUpload: Option<Upload>)
    requires IsValidObjectId(videoId) && (HasText(title) || HasText(description) || thumbnailFile.Some?)
    requires Count(s.videos, OwnedWithId(Cast(videoId), caller)) > 0
    requires thumbnailFile.Some? ==> Uploaded(thumbnailUpload)
    requires !(Truthy(title) && IsBlank(title.value)) && !(Truthy(description) && IsBlank(description.value))
    requires Described(s.videos)
    ensures UpdateVideo(s, caller, videoId, title, description, thumbnailFile, thumbnailUpload).out.Ok?
  {
  }

  /** Applying the same text patch twice changes nothing more than applying it once. */
  lemma PatchedIdempotent(v: Video, title: Option<string>, description: Option<string>)
    ensures Patched(Patched(v, title, description, None), title, description, None) == Patched(v, title, description, None)
  {
    if Truthy(title) { TrimIdempotent(title.value); }
    if Truthy(description) { TrimIdempotent(description.value); }
  }

  /** The text-only update of the first matching video, once every check has passed. */
  lemma UpdateVideoTextOnly(s: Store, caller: Id, videoId: string, title: Option<string>,
                            description: Option<string>, thumbnailUpload: Option<Upload>, i: nat)
    requires IsValidObjectId(videoId) && (HasText(title) || HasText(description))
    requires FirstIndex(s.videos, OwnedWithId(Cast(videoId), caller)) == Some(i)
    ensures var v := Patched(s.videos[i], title, description, None);
      UpdateVideo(s, caller, videoId, title, description, None, thumbnailUpload)
        == if v.title == "" || v.description == "" then Reject(s, Unspecified)
           else Handled(s.(videos := s.videos[i := v]), Ok(200, v))
  {
  }

  /** Repeating an update that sends no thumbnail file gives the same store and answer. */
  lemma {:induction false} UpdateVideoIdempotent(s: Store, caller: Id, videoId: string, title: Option<string>,
                                                 description: Option<string>, thumbnailUpload: Option<Upload>)
    ensures var h1 := UpdateVideo(s, caller, videoId, title, description, None, thumbnailUpload);
      UpdateVideo(h1.store, caller, videoId, title, description, None, thumbnailUpload) == h1
  {
    var key := OwnedWithId(Cast(videoId), caller);
    if IsValidObjectId(videoId) && (HasText(title) || HasText(description)) && FirstIndex(s.videos, key).Some? {
      var i := FirstIndex(s.videos, key).value;
      var v := Patched(s.videos[i], title, description, None);
      UpdateVideoTextOnly(s, caller, videoId, title, description, thumbnailUpload, i);
      if v.title != "" && v.description != "" {
        var vs := s.videos[i := v];
        FirstIndexUpdate(s.videos, i, v, key);
        PatchedIdempotent(s.videos[i], title, description);
        UpdateSelf(vs, i);
        UpdateVideoTextOnly(s.(videos := vs), caller, videoId, title, description, thumbnailUpload, i);
      }
    }
  }

  // ---- getVideoById ----

  /** getVideoById, for a caller who may be anonymous: a draft is shown only to its owner (403
      otherwise); a published video is shown to anyone. This is the handler as its comments intend
      it; the route as wired never attaches a user, see `GetVideoByIdAsRouted`. */
  function GetVideoById(s: Store, caller: Option<Id>, videoId: string): (h: Handled<Video>)
    ensures h.store == s
    ensures !IsValidObjectId(videoId) ==> h.out == Err(Status(400))
    ensures IsValidObjectId(videoId) && Count(s.videos, WithId(Cast(videoId))) == 0 ==> h.out == Err(Status(404))
    ensures IsValidObjectId(videoId) && Count(s.videos, WithId(Cast(videoId))) > 0 ==>
      exists i :: 0 <= i < |s.videos| && s.videos[i].id == Cast(videoId)
        && (forall j :: 0 <= j < i ==> s.videos[j].id != Cast(videoId))
        && (h.out == Ok(200, s.videos[i]) <==> s.videos[i].isPublished || caller == Some(s.videos[i].owner))
        && (h.out == Err(Status(403)) <==> !s.videos[i].isPublished && caller != Some(s.videos[i].owner))
  {
    if !IsValidObjectId(videoId) then Fail(s, 400)
    else
      match FirstIndex(s.videos, WithId(Cast(videoId)))
      case None => Fail(s, 404)
      case Some(i) =>
        var v := s.videos[i];
        if !v.isPublished && (caller.None? || v.owner != caller.value) then Fail(s, 403)
        else Handled(s, Ok(200, v))
  }

  /** A video just published is shown to anyone who asks for it, signed in or not. */
  lemma {:induction false} PublishedVideoShownToAll(s: Store, caller: Id, title: Option<string>, description: Option<string>,
                                                    files: Option<VideoFiles>, videoUpload: Option<Upload>,
                                                    thumbnailUpload: Option<Upload>, newId: Id, viewer: Option<Id>)
    requires PublishAVideo(s, caller, title, description, files, videoUpload, thumbnailUpload, newId).out.Ok?
    requires IsGeneratedId(newId)
    ensures var h := PublishAVideo(s, caller, title, description, files, videoUpload, thumbnailUpload, newId);
      GetVideoById(h.store, viewer, newId) == Handled(h.store, Ok(200, h.out.data))
  {
    var v := PublishAVideo(s, caller, title, description, files, videoUpload, thumbnailUpload, newId).out.data;
    assert Cast(newId) == newId by { CastCanonical(newId); }
    assert forall j :: 0 <= j < |s.videos| ==> !WithId(newId)(s.videos[j]);
    FirstIndexAppendNew(s.videos, v, WithId(newId));
  }

  /** getVideoById as the router wires it: the route has no authentication gate, so no caller is
      ever known, and only published videos are ever shown. */
  function GetVideoByIdAsRouted(s: Store, videoId: string): (h: Handled<Video>)
    ensures h.store == s
    ensures h.out.Ok? ==> h.out.data in s.videos && h.out.data.isPublished
  {
    GetVideoById(s, None, videoId)
  }

  /** As routed, even the owner of a draft is refused it with 403, while the handler given the
      owner as caller shows it. */
  lemma DraftHiddenFromOwnerAsRouted(s: Store, videoId: string, i: nat)
    requires IsValidObjectId(videoId)
    requires FirstIndex(s.videos, WithId(Cast(videoId))) == Some(i) && !s.videos[i].isPublished
    ensures GetVideoByIdAsRouted(s, videoId).out == Err(Status(403))
    ensures GetVideoById(s, Some(s.videos[i].owner), videoId).out == Ok(200, s.videos[i])
  {
  }
}
