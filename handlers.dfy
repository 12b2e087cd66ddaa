/** The read-only route handlers of backend/server.js (GET /api/users,
    GET /api/users/:id, GET /api/tweets, GET /api/tweets/:id) as functions of
    the stored sequences, with what they promise proved as lemmas. Being
    functions, they cannot change the store: the listing sorts a copy. */
module Handlers {
  import opened Records
  import opened JsArray

  /** The callbacks the handlers pass to `find`, `findIndex` and `filter`. */
  function UserHasId(id: string): User -> bool { (u: User) => u.id == id }
  function TweetHasId(id: string): Tweet -> bool { (t: Tweet) => t.id == id }
  function ByUser(userId: string): Tweet -> bool { (t: Tweet) => t.userId == userId }
  /** Tweets with timestamp `time`; used to state stability of the sort. */
  function At(time: int): Tweet -> bool { (t: Tweet) => t.createdAt == time }

  /** GET /api/users: the users collection as stored, unfiltered. */
  function ListUsers(users: seq<User>): (r: seq<User>)
    ensures |r| == |users| && forall k :: 0 <= k < |r| ==> r[k] == users[k]
  {
    users
  }

  /** GET /api/users/:id: the first stored user with that id, or not found. */
  function GetUser(users: seq<User>, id: string): (r: Option<User>)
    ensures r.None? <==> forall k :: 0 <= k < |users| ==> users[k].id != id
    ensures r.Some? ==> exists k :: 0 <= k < |users| && users[k] == r.value && users[k].id == id
                                    && forall j :: 0 <= j < k ==> users[j].id != id
  {
    var i := FindIndex(users, UserHasId(id));
    assert i != -1 ==> UserHasId(id)(users[i]);
    Find(users, UserHasId(id))
  }

  /** GET /api/tweets/:id: the first stored tweet with that id, or not found. */
  function GetTweet(tweets: seq<Tweet>, id: string): (r: Option<Tweet>)
    ensures r.None? <==> forall k :: 0 <= k < |tweets| ==> tweets[k].id != id
    ensures r.Some? ==> exists k :: 0 <= k < |tweets| && tweets[k] == r.value && tweets[k].id == id
                                    && forall j :: 0 <= j < k ==> tweets[j].id != id
  {
    var i := FindIndex(tweets, TweetHasId(id));
    assert i != -1 ==> TweetHasId(id)(tweets[i]);
    Find(tweets, TweetHasId(id))
  }

  /** The truthiness test on the `userId` query parameter: absent and the
      empty string are falsy, every other string is truthy. */
  predicate Truthy(userId: Option<string>)
  {
    userId.Some? && userId.value != ""
  }

  /** The tweets GET /api/tweets sorts: all of them, or only those of the
      requested user when the parameter is truthy. */
  function Selected(tweets: seq<Tweet>, userId: Option<string>): seq<Tweet>
  {
    if Truthy(userId) then Filter(tweets, ByUser(userId.value)) else tweets
  }

  /** Newest first: timestamps never increase along the sequence. */
  predicate SortedDesc(s: seq<Tweet>)
  {
    forall i, j :: 0 <= i < j < |s| ==> s[i].createdAt >= s[j].createdAt
  }

  /** One step of a stable insertion sort, newest first: `x` goes before the
      first element that is not newer than it. */
  function Insert(x: Tweet, s: seq<Tweet>): (r: seq<Tweet>)
    ensures multiset(r) == multiset(s) + multiset{x}
  {
    if s == [] || x.createdAt >= s[0].createdAt then [x] + s
    else
      assert s == [s[0]] + s[1..];
      [s[0]] + Insert(x, s[1..])
  }

  /** Inserting into a newest-first sequence keeps it newest first. */
  lemma {:induction false} InsertSorted(x: Tweet, s: seq<Tweet>)
    requires SortedDesc(s)
    ensures SortedDesc(Insert(x, s))
  {
    if s != [] && x.createdAt < s[0].createdAt {
      var rest := Insert(x, s[1..]);
      InsertSorted(x, s[1..]);
      forall k | 0 <= k < |rest|
        ensures rest[k].createdAt <= s[0].createdAt
      {
        assert rest[k] in multiset(rest);
        assert rest[k] == x || rest[k] in multiset(s[1..]);
      }
    }
  }

  /** The comparator `(a, b) => b.createdAt - a.createdAt` passed to the
      stable `Array.prototype.sort`. */
  function SortByDate(s: seq<Tweet>): (r: seq<Tweet>)
    ensures multiset(r) == multiset(s)
    ensures SortedDesc(r)
  {
    if s == [] then []
    else
      assert s == [s[0]] + s[1..];
      InsertSorted(s[0], SortByDate(s[1..]));
      Insert(s[0], SortByDate(s[1..]))
  }

  /** GET /api/tweets?userId=...: the selected tweets, newest first. */
  function ListTweets(tweets: seq<Tweet>, userId: Option<string>): (r: seq<Tweet>)
    ensures SortedDesc(r)
    ensures multiset(r) == multiset(Selected(tweets, userId))
    ensures !Truthy(userId) ==> multiset(r) == multiset(tweets)
    ensures forall x :: x in r <==> x in tweets && (Truthy(userId) ==> x.userId == userId.value)
  {
    var sel := Selected(tweets, userId);
    var r := SortByDate(sel);
    var uid := if userId.Some? then userId.value else "";
    FilterContents(tweets, ByUser(uid));
    assert forall x :: x in r <==> x in multiset(r);
    assert forall x :: x in sel <==> x in multiset(sel);
    r
  }

  // Stability: tweets with equal timestamps keep their stored order.

  lemma {:induction false} InsertStable(x: Tweet, s: seq<Tweet>, time: int)
    ensures Filter(Insert(x, s), At(time)) == Filter([x], At(time)) + Filter(s, At(time))
  {
    var p := At(time);
    assert Filter([x], p) == (if p(x) then [x] else []) + Filter([x][1..], p);
    assert [x][1..] == [];
    if s == [] || x.createdAt >= s[0].createdAt {
      var r := [x] + s;
      assert r[0] == x && r[1..] == s;
    } else {
      var rest := Insert(x, s[1..]);
      var r := [s[0]] + rest;
      assert r[0] == s[0] && r[1..] == rest;
      InsertStable(x, s[1..], time);
      assert !(p(x) && p(s[0]));
    }
  }

  lemma {:induction false} SortStable(s: seq<Tweet>, time: int)
    ensures Filter(SortByDate(s), At(time)) == Filter(s, At(time))
  {
    if s != [] {
      var p := At(time);
      var sorted := SortByDate(s[1..]);
      assert SortByDate(s) == Insert(s[0], sorted);
      SortStable(s[1..], time);
      InsertStable(s[0], sorted, time);
      var head := if p(s[0]) then [s[0]] else [];
      assert Filter([s[0]], p) == head + Filter([], p);
      assert Filter(s, p) == head + Filter(s[1..], p);
    }
  }

  /** The listing keeps, for every timestamp, the stored order of the
      selected tweets that carry it. */
  lemma ListTweetsStable(tweets: seq<Tweet>, userId: Option<string>, time: int)
    ensures Filter(ListTweets(tweets, userId), At(time)) == Filter(Selected(tweets, userId), At(time))
  {
    SortStable(Selected(tweets, userId), time);
  }

  /** Tweets of `userId` with timestamp `time`. */
  function ByUserAt(userId: string, time: int): Tweet -> bool
  {
    (t: Tweet) => t.userId == userId && t.createdAt == time
  }

  /** Stability stated against the stored tweets themselves: for a truthy
      `userId`, the listing's tweets with timestamp `time` are that user's
      stored tweets with that timestamp, in stored order; otherwise they are
      all stored tweets with that timestamp, in stored order. */
  lemma ListTweetsStableInStore(tweets: seq<Tweet>, userId: Option<string>, time: int)
    ensures Truthy(userId) ==>
      Filter(ListTweets(tweets, userId), At(time)) == Filter(tweets, ByUserAt(userId.value, time))
    ensures !Truthy(userId) ==>
      Filter(ListTweets(tweets, userId), At(time)) == Filter(tweets, At(time))
  {
    ListTweetsStable(tweets, userId, time);
    if Truthy(userId) {
      FilterFilter(tweets, ByUser(userId.value), At(time), ByUserAt(userId.value, time));
    }
  }

  /** The first tweet of a non-empty sequence is what it holds at that
      tweet's own timestamp. */
  lemma FilterAtHead(a: seq<Tweet>)
    requires a != []
    ensures Filter(a, At(a[0].createdAt)) == [a[0]] + Filter(a[1..], At(a[0].createdAt))
  {
  }

  /** Two newest-first sequences that agree at every timestamp start with
      the same tweet. */
  lemma SameHead(a: seq<Tweet>, b: seq<Tweet>)
    requires a != [] && b != []
    requires SortedDesc(a) && SortedDesc(b)
    requires forall time :: Filter(a, At(time)) == Filter(b, At(time))
    ensures a[0] == b[0]
  {
    var ma, mb := a[0].createdAt, b[0].createdAt;
    HeadIsNewest(a, b[0]);
    HeadIsNewest(b, a[0]);
    assert ma == mb;
    FilterAtHead(a);
    FilterAtHead(b);
    assert Filter(a, At(ma))[0] == a[0];
  }

  lemma HeadIsNewest(a: seq<Tweet>, x: Tweet)
    requires a != [] && SortedDesc(a)
    requires Filter(a, At(x.createdAt)) != []
    ensures x.createdAt <= a[0].createdAt
  {
  }

  /** A common prefix can be cancelled. */
  lemma PrefixCancel<X>(h: seq<X>, x: seq<X>, y: seq<X>)
    requires h + x == h + y
    ensures x == y
  {
    assert x == (h + x)[|h|..];
    assert y == (h + y)[|h|..];
  }

  /** Removing the same first tweet from both keeps them in agreement. */
  lemma SameTails(a: seq<Tweet>, b: seq<Tweet>)
    requires a != [] && b != [] && a[0] == b[0]
    requires forall time :: Filter(a, At(time)) == Filter(b, At(time))
    ensures forall time :: Filter(a[1..], At(time)) == Filter(b[1..], At(time))
  {
    forall time
      ensures Filter(a[1..], At(time)) == Filter(b[1..], At(time))
    {
      var head := if At(time)(a[0]) then [a[0]] else [];
      assert Filter(a, At(time)) == head + Filter(a[1..], At(time));
      assert Filter(b, At(time)) == head + Filter(b[1..], At(time));
      PrefixCancel(head, Filter(a[1..], At(time)), Filter(b[1..], At(time)));
    }
  }

  /** A newest-first sequence is determined by what it holds at each
      timestamp and in what order. */
  lemma {:induction false} StableSortUnique(a: seq<Tweet>, b: seq<Tweet>)
    requires SortedDesc(a) && SortedDesc(b)
    requires forall time :: Filter(a, At(time)) == Filter(b, At(time))
    ensures a == b
    decreases |a|
  {
    if a == [] && b != [] {
      FilterAtHead(b);
    } else if a != [] && b == [] {
      FilterAtHead(a);
    } else if a != [] {
      SameHead(a, b);
      SameTails(a, b);
      StableSortUnique(a[1..], b[1..]);
      assert a == [a[0]] + a[1..] && b == [b[0]] + b[1..];
    }
  }

  /** The listing is THE stable newest-first ordering of the selected tweets:
      any newest-first sequence that keeps the stored order within each
      timestamp is equal to it. */
  lemma ListTweetsIsStableSort(tweets: seq<Tweet>, userId: Option<string>, r: seq<Tweet>)
    requires SortedDesc(r)
    requires forall time :: Filter(r, At(time)) == Filter(Selected(tweets, userId), At(time))
    ensures r == ListTweets(tweets, userId)
  {
    forall time
      ensures Filter(r, At(time)) == Filter(ListTweets(tweets, userId), At(time))
    {
      ListTweetsStable(tweets, userId, time);
    }
    StableSortUnique(r, ListTweets(tweets, userId));
  }

  /** Two tweets of user "5", the later one stored second: filtering on "5"
      lists the later one first. */
  lemma ListTweetsByUserExample()
    ensures var first := Tweet("1", "5", 20240101, [], "");
            var second := Tweet("2", "5", 20240601, [], "");
            var other := Tweet("3", "6", 20240301, [], "");
            ListTweets([first, second, other], Some("5")) == [second, first]
  {
  }
}
