/** The process-wide `database` object of backend/server.js and its mutating
    route handlers (POST /api/tweets, PATCH /api/tweets/:id,
    DELETE /api/tweets/:id), with `saveDatabase` as an abstract flush. */
module Server {
  import opened Records
  import opened JsArray
  import opened Handlers

  /** No two stored tweets share an id. Nothing in the service enforces
      this; some lemmas below assume it. */
  predicate UniqueIds(tweets: seq<Tweet>)
  {
    forall i, j :: 0 <= i < j < |tweets| ==> tweets[i].id != tweets[j].id
  }

  class Database {
    var users: seq<User>
    var tweets: seq<Tweet>
    /** Every snapshot `saveDatabase` has been asked to write, oldest first. */
    ghost var flushes: seq<Snapshot>
    /** The document on disk. It equals the snapshot of the last flush when
        that flush's write succeeded; after a failed write it is unknown,
        since the write truncates the file before filling it. */
    ghost var disk: Snapshot

    /** The state after the startup load of a well-formed document. */
    constructor (initial: Snapshot)
      ensures users == initial.users && tweets == initial.tweets
      ensures flushes == [] && disk == initial
    {
      users := initial.users;
      tweets := initial.tweets;
      flushes := [];
      disk := initial;
    }

    /** The in-memory snapshot. */
    function Current(): (db: Snapshot)
      reads this
    {
      Snapshot(users, tweets)
    }

    /** `saveDatabase`: serialise the whole snapshot and overwrite the file.
        `writeOk` says whether the write succeeds. A failure is only logged,
        so the in-memory state and the caller's result never depend on it;
        the file may then hold the old document, nothing, or part of the new
        one, and the model says nothing about it. */
    method SaveDatabase(writeOk: bool)
      modifies this`flushes, this`disk
      ensures flushes == old(flushes) + [Current()]
      ensures writeOk ==> disk == Current()
    {
      flushes := flushes + [Current()];
      if writeOk {
        disk := Current();
      } else {
        disk := *;
      }
    }

    /** The `findIndex` search by id of the PATCH and DELETE handlers. */
    method FindTweetIndex(id: string) returns (i: int)
      ensures i == FindIndex(tweets, TweetHasId(id))
      ensures i == -1 <==> forall k :: 0 <= k < |tweets| ==> tweets[k].id != id
    {
      i := 0;
      while i < |tweets| && tweets[i].id != id
        invariant 0 <= i <= |tweets|
        invariant forall k :: 0 <= k < i ==> tweets[k].id != id
      {
        i := i + 1;
      }
      if i == |tweets| {
        i := -1;
      }
      FirstMatchUnique(tweets, TweetHasId(id), i, FindIndex(tweets, TweetHasId(id)));
    }

    /** POST /api/tweets: the body goes to the head of the collection, the
        snapshot is flushed and the body is answered back. */
    method CreateTweet(t: Tweet, writeOk: bool) returns (created: Tweet)
      modifies this
      ensures created == t
      ensures tweets == Unshift(old(tweets), t) && users == old(users)
      ensures flushes == old(flushes) + [Current()]
      ensures writeOk ==> disk == Current()
    {
      tweets := Unshift(tweets, t);
      SaveDatabase(writeOk);
      created := t;
    }

    /** PATCH /api/tweets/:id: when a tweet has that id and the body's
        `likedBy` is an array, the first such tweet's `likedBy` is replaced by
        it, the snapshot is flushed and the updated tweet is answered;
        otherwise nothing changes, nothing is flushed and the answer is the
        not-found error. */
    method PatchTweet(id: string, likedBy: LikedByValue, writeOk: bool) returns (r: Option<Tweet>)
      modifies this
      ensures users == old(users)
      ensures var i := FindIndex(old(tweets), TweetHasId(id));
        if i != -1 && likedBy.ArrayValue? then
          && tweets == old(tweets)[i := old(tweets)[i].(likedBy := likedBy.ids)]
          && r == Some(tweets[i])
          && flushes == old(flushes) + [Current()]
          && (writeOk ==> disk == Current())
        else
          && tweets == old(tweets)
          && r == None
          && flushes == old(flushes)
          && disk == old(disk)
    {
      var i := FindTweetIndex(id);
      if i != -1 && likedBy.ArrayValue? {
        tweets := tweets[i := tweets[i].(likedBy := likedBy.ids)];
        SaveDatabase(writeOk);
        r := Some(tweets[i]);
      } else {
        r := None;
      }
    }

    /** DELETE /api/tweets/:id: when a tweet has that id, the first such
        tweet is removed and the snapshot is flushed; otherwise nothing
        changes and nothing is flushed. `deleted` tells the two apart (204
        against 404). */
    method DeleteTweet(id: string, writeOk: bool) returns (deleted: bool)
      modifies this
      ensures users == old(users)
      ensures deleted <==> exists k :: 0 <= k < |old(tweets)| && old(tweets)[k].id == id
      ensures var i := FindIndex(old(tweets), TweetHasId(id));
        if i != -1 then
          && tweets == Splice(old(tweets), i)
          && flushes == old(flushes) + [Current()]
          && (writeOk ==> disk == Current())
        else
          && tweets == old(tweets)
          && flushes == old(flushes)
          && disk == old(disk)
    {
      var i := FindTweetIndex(id);
      if i != -1 {
        tweets := Splice(tweets, i);
        SaveDatabase(writeOk);
        deleted := true;
      } else {
        deleted := false;
      }
    }
  }

  // What the mutations mean for the read handlers.

  /** After a creation, looking up the new tweet's id finds the new tweet,
      even when an older tweet has the same id. */
  lemma CreatedIsFound(tweets: seq<Tweet>, t: Tweet)
    ensures GetTweet(Unshift(tweets, t), t.id) == Some(t)
  {
  }

  /** A created tweet heads the unfiltered listing when no stored tweet is
      newer than it (ties go to it, as it is stored first). */
  lemma CreatedListedFirst(tweets: seq<Tweet>, t: Tweet)
    requires forall k :: 0 <= k < |tweets| ==> tweets[k].createdAt <= t.createdAt
    ensures ListTweets(Unshift(tweets, t), None) == [t] + SortByDate(tweets)
  {
    var stored := Unshift(tweets, t);
    var sorted := SortByDate(tweets);
    assert stored[0] == t && stored[1..] == tweets;
    assert SortByDate(stored) == Insert(t, sorted);
    if sorted != [] {
      assert sorted[0] in multiset(tweets);
    }
  }

  /** A created tweet heads the unfiltered listing only when no stored tweet
      is newer: a newer stored tweet is listed before it. */
  lemma CreatedNotListedFirst(tweets: seq<Tweet>, t: Tweet)
    requires exists k :: 0 <= k < |tweets| && tweets[k].createdAt > t.createdAt
    ensures ListTweets(Unshift(tweets, t), None)[0] != t
  {
    var k :| 0 <= k < |tweets| && tweets[k].createdAt > t.createdAt;
    var r := ListTweets(Unshift(tweets, t), None);
    assert tweets[k] in multiset(Unshift(tweets, t));
    assert tweets[k] in multiset(r);
    assert tweets[k] in r;
  }

  /** A created tweet does not always head the unfiltered listing: the
      listing is ordered by timestamp, not by insertion. */
  lemma CreatedNotAlwaysListedFirst()
    ensures var older := Tweet("1", "5", 20, [], "");
            var created := Tweet("2", "5", 10, [], "");
            ListTweets(Unshift([older], created), None) == [older, created]
  {
  }

  /** After a successful patch, looking up the id finds the patched tweet. */
  lemma PatchedIsFound(tweets: seq<Tweet>, id: string, ids: seq<string>)
    requires FindIndex(tweets, TweetHasId(id)) != -1
    ensures var i := FindIndex(tweets, TweetHasId(id));
            GetTweet(tweets[i := tweets[i].(likedBy := ids)], id) == Some(tweets[i].(likedBy := ids))
  {
  }

  /** After a deletion, looking up the id finds nothing, when ids are unique. */
  lemma DeletedNotFound(tweets: seq<Tweet>, id: string)
    requires UniqueIds(tweets)
    requires FindIndex(tweets, TweetHasId(id)) != -1
    ensures GetTweet(Splice(tweets, FindIndex(tweets, TweetHasId(id))), id) == None
  {
  }
}
