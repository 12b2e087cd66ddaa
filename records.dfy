/** The records held by the service's in-memory database (the `database`
    object of backend/server.js): its users, its tweets and the snapshot made
    of both that is loaded at startup and written back on every mutation. */
module Records {

  /** A user. Identifiers are compared by their canonical string form, which
      stands for the loose `==` the handlers use. */
  datatype User = User(id: string, email: string, username: string, name: string)

  /** A tweet. `createdAt` is the timestamp the listing sorts on; `payload`
      stands for the further fields of the request body, stored as they came. */
  datatype Tweet = Tweet(id: string, userId: string, createdAt: int, likedBy: seq<string>, payload: string)

  /** The whole database document: `{ users, tweets }`. */
  datatype Snapshot = Snapshot(users: seq<User>, tweets: seq<Tweet>)

  /** The `likedBy` field of a PATCH body: either an array (of user ids) or
      any other JSON value, including an absent field. */
  datatype LikedByValue = ArrayValue(ids: seq<string>) | NonArray
}
