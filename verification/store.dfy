/** The records of the document store and the shape of a handler's answer.
    Each collection is a sequence in creation order; a handler is a pure function from the
    store (plus its request) to a new store and a response. */
module Store {
  import opened Base
  import opened Ids

  /** A user document; `password` and `refreshToken` are never sent back to a client. */
  datatype User = User(
    id: Id,
    username: string,
    email: string,
    fullname: string,
    avatar: string,
    coverImage: string,
    watchHistory: seq<Id>,
    password: string,
    refreshToken: Option<string>)

  datatype Video = Video(
    id: Id,
    videoFile: string,
    thumbnail: string,
    title: string,
    description: string,
    duration: nat,
    views: nat,
    isPublished: bool,
    owner: Id)

  datatype Comment = Comment(id: Id, content: string, video: Id, owner: Id)

  datatype Tweet = Tweet(id: Id, content: string, owner: Id)

  datatype Playlist = Playlist(id: Id, name: string, description: string, videos: seq<Id>, owner: Id)

  /** A like names its liker and, in one of three optional fields, what is liked. */
  datatype Like = Like(video: Option<Id>, comment: Option<Id>, tweet: Option<Id>, likedBy: Id)

  datatype Subscription = Subscription(subscriber: Id, channel: Id)

  datatype Store = Store(
    users: seq<User>,
    videos: seq<Video>,
    comments: seq<Comment>,
    tweets: seq<Tweet>,
    playlists: seq<Playlist>,
    likes: seq<Like>,
    subscriptions: seq<Subscription>)

  /** The status of an error response. `Unspecified` covers an `ApiError` built with a message
      in place of a status code, and runtime errors (a `TypeError`, a failed schema validation,
      a duplicate key) whose status the error adapter decides. */
  datatype Status = Status(code: nat) | Unspecified

  datatype Response<T> = Ok(code: nat, data: T) | Err(status: Status)

  /** A handler's effect: the store afterwards and the response sent. */
  datatype Handled<T> = Handled(store: Store, out: Response<T>)

  /** What the media host answers for a successful upload: the delivery url and, for a file it
      stores as a video, the duration in whole seconds. */
  datatype Upload = Upload(url: string, duration: Option<nat>)

  /** An error response that leaves the store as it was. */
  function Reject<T>(s: Store, status: Status): Handled<T> {
    Handled(s, Err(status))
  }

  function Fail<T>(s: Store, code: nat): Handled<T> {
    Reject(s, Status(code))
  }

  /** Whether the response is an error with the given status code. */
  predicate IsError<T>(r: Response<T>, code: nat) {
    r.Err? && r.status == Status(code)
  }
}
