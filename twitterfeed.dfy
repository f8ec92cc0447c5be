/** The list logic of the live Twitter feed (twitter_widget/Twitterfeed.php):
    the tweets of a feed newer than a given id, the search query for one
    author, and the batch import that merges each author's new tweets into
    the feed, newest first.  The search service, the link rewriting of
    tweet texts and the date parsing are outside: the search is a
    parameter, link rewriting a function parameter, and dates arrive as
    timestamps.  Tweet ids are integers. */
module Twitterfeed {

  import opened Wrappers

  /** A tweet as the feed stores it. */
  datatype StoredTweet = StoredTweet(author: string, text: string, postId: int, createdAt: int)

  /** A tweet as the search returns it. */
  datatype SearchResult = SearchResult(id: int, fromUser: string, text: string, createdAt: int,
                                       profileImageUrl: string)

  /** What the feed keeps for each author. */
  datatype Handle = Handle(lastPostId: int, avatarUrl: string)

  /** The search parameters. */
  datatype Params = Params(rpp: int, resultType: string, sinceId: Option<int>)

  // ---------------------------------------------------------------------
  // getLatestTweets
  // ---------------------------------------------------------------------

  /** The length of the run of tweets at the front newer than sinceId. */
  function NewerRun(tweets: seq<StoredTweet>, sinceId: int): (n: nat)
    ensures n <= |tweets|
    ensures forall i :: 0 <= i < n ==> tweets[i].postId > sinceId
    ensures n < |tweets| ==> tweets[n].postId <= sinceId
  {
    if tweets == [] || tweets[0].postId <= sinceId then 0 else 1 + NewerRun(tweets[1..], sinceId)
  }

  /** PHP `array_slice($xs, 0, $limit)` for a non-zero limit: the first
      `limit` elements, or all but the last `-limit` for a negative one. */
  function Slice<T>(xs: seq<T>, limit: int): (r: seq<T>)
    requires limit != 0
    ensures r <= xs
    ensures limit > 0 ==> |r| == if limit < |xs| then limit else |xs|
    ensures limit < 0 ==> |r| == if |xs| + limit > 0 then |xs| + limit else 0
  {
    if limit > 0 then (if limit < |xs| then xs[..limit] else xs)
    else (if |xs| + limit > 0 then xs[..|xs| + limit] else [])
  }

  /** The tweets `getLatestTweets` returns: the run of newer tweets at the
      front of the feed, sliced when a limit is given. */
  function Latest(tweets: seq<StoredTweet>, sinceId: int, limit: int): seq<StoredTweet>
  {
    var newer := tweets[..NewerRun(tweets, sinceId)];
    if limit != 0 then Slice(newer, limit) else newer
  }

  /** `getLatestTweets` (twitter_widget/Twitterfeed.php:59-75). */
  method GetLatestTweets(contentTweets: seq<StoredTweet>, sinceId: int, limit: int)
    returns (latestTweets: seq<StoredTweet>)
    ensures latestTweets == Latest(contentTweets, sinceId, limit)
    ensures latestTweets <= contentTweets
    ensures forall i :: 0 <= i < |latestTweets| ==> latestTweets[i].postId > sinceId
    ensures limit > 0 ==> |latestTweets| <= limit
    ensures limit == 0 && |latestTweets| < |contentTweets| ==> contentTweets[|latestTweets|].postId <= sinceId
  {
    latestTweets := [];
    var i := 0;
    while i < |contentTweets|
      invariant i <= NewerRun(contentTweets, sinceId)
      invariant latestTweets == contentTweets[..i]
    {
      if contentTweets[i].postId > sinceId {
        latestTweets := latestTweets + [contentTweets[i]];
        i := i + 1;
      } else {
        break;
      }
    }
    if limit != 0 {
      latestTweets := Slice(latestTweets, limit);
    }
  }

  // ---------------------------------------------------------------------
  // _getLatestTweets
  // ---------------------------------------------------------------------

  /** PHP truthiness of a string: only "" and "0" are false. */
  predicate Truthy(s: string) { s != "" && s != "0" }

  /** The search string (twitter_widget/Twitterfeed.php:171-184): an
      error when neither the author nor the hashtag is given. */
  function Query(name: string, hashtag: string): (r: Result<string, string>)
    ensures r.Err? <==> !Truthy(name) && !Truthy(hashtag)
    ensures Truthy(name) && !Truthy(hashtag) ==> r == Ok("from:" + name)
    ensures !Truthy(name) && Truthy(hashtag) ==> r == Ok("#" + hashtag)
    ensures Truthy(name) && Truthy(hashtag) ==> r == Ok("from:" + name + " " + "#" + hashtag)
  {
    if !Truthy(name) && !Truthy(hashtag) then Err("Neither author nor hashtag is passed")
    else if !Truthy(hashtag) then Ok("from:" + name)
    else if !Truthy(name) then Ok("#" + hashtag)
    else Ok("from:" + name + " " + "#" + hashtag)
  }

  /** The parameters (twitter_widget/Twitterfeed.php:187-193): 50 recent
      results, and `since_id` only when positive. */
  function SearchParams(sinceId: int): (p: Params)
    ensures p.rpp == 50 && p.resultType == "recent"
    ensures p.sinceId.Some? <==> sinceId > 0
    ensures p.sinceId.Some? ==> p.sinceId.value == sinceId
  {
    Params(50, "recent", if sinceId > 0 then Some(sinceId) else None)
  }

  // --- usort, newest first -------------------------------------------------

  predicate SortedDown<T>(xs: seq<T>, key: T -> int)
  {
    forall i, j :: 0 <= i < j < |xs| ==> key(xs[i]) >= key(xs[j])
  }

  /** x placed after every element whose key is at least its own. */
  function Insert<T>(x: T, xs: seq<T>, key: T -> int): (r: seq<T>)
    ensures |r| == |xs| + 1
    ensures multiset(r) == multiset(xs) + multiset{x}
  {
    if xs == [] then [x]
    else if key(xs[0]) >= key(x) then
      assert xs == [xs[0]] + xs[1..];
      [xs[0]] + Insert(x, xs[1..], key)
    else [x] + xs
  }

  lemma {:induction false} InsertSorted<T>(x: T, xs: seq<T>, key: T -> int)
    requires SortedDown(xs, key)
    ensures SortedDown(Insert(x, xs, key), key)
  {
    if xs != [] && key(xs[0]) >= key(x) {
      var rest := Insert(x, xs[1..], key);
      InsertSorted(x, xs[1..], key);
      forall k | 0 <= k < |rest|
        ensures key(xs[0]) >= key(rest[k])
      {
        assert rest[k] in multiset(rest);
        if rest[k] != x {
          assert rest[k] in multiset(xs[1..]);
          var m :| 0 <= m < |xs| - 1 && xs[1..][m] == rest[k];
          assert xs[m + 1] == rest[k];
        }
      }
      assert Insert(x, xs, key) == [xs[0]] + rest;
    }
  }

  /** The order `usort` leaves behind with a comparator of b's key minus
      a's key: by key, largest first. */
  function SortDown<T>(xs: seq<T>, key: T -> int): (r: seq<T>)
    ensures |r| == |xs|
    ensures multiset(r) == multiset(xs)
    ensures SortedDown(r, key)
  {
    if xs == [] then []
    else
      var init := xs[..|xs| - 1];
      assert xs == init + [xs[|xs| - 1]];
      InsertSorted(xs[|xs| - 1], SortDown(init, key), key);
      Insert(xs[|xs| - 1], SortDown(init, key), key)
  }

  function ResultId(r: SearchResult): int { r.id }

  function TweetId(t: StoredTweet): int { t.postId }

  /** `_getLatestTweets` (twitter_widget/Twitterfeed.php:169-213): the
      search for the query and parameters, whose results come back newest
      first; a failed search (no results key, or an exception) gives none. */
  function LatestResults(name: string, hashtag: string, sinceId: int,
                         search: (string, Params) -> Option<seq<SearchResult>>): Result<seq<SearchResult>, string>
  {
    match Query(name, hashtag)
    case Err(e) => Err(e)
    case Ok(q) =>
      match search(q, SearchParams(sinceId))
      case None => Ok([])
      case Some(results) => Ok(SortDown(results, ResultId))
  }

  // ---------------------------------------------------------------------
  // importTweets
  // ---------------------------------------------------------------------

  /** The length of the run of results at the front created no earlier
      than the feed's start. */
  function RecentRun(results: seq<SearchResult>, startTime: int): (n: nat)
    ensures n <= |results|
    ensures forall i :: 0 <= i < n ==> results[i].createdAt >= startTime
    ensures n < |results| ==> results[n].createdAt < startTime
  {
    if results == [] || results[0].createdAt < startTime then 0
    else 1 + RecentRun(results[1..], startTime)
  }

  /** The results written by the author, in order. */
  function Own(results: seq<SearchResult>, name: string): seq<SearchResult>
  {
    if results == [] then []
    else Own(results[..|results| - 1], name)
         + (if results[|results| - 1].fromUser == name then [results[|results| - 1]] else [])
  }

  lemma {:induction false} OwnMembers(results: seq<SearchResult>, name: string)
    ensures forall r :: r in Own(results, name) <==> r in results && r.fromUser == name
  {
    if results != [] {
      var init := results[..|results| - 1];
      OwnMembers(init, name);
      assert results == init + [results[|results| - 1]];
    }
  }

  function Stored(r: SearchResult, links: string -> string): StoredTweet
  {
    StoredTweet(r.fromUser, links(r.text), r.id, r.createdAt)
  }

  /** `$latest_redux[$id] = $tweet`: an existing entry for the id is
      replaced where it stands, a new one appended. */
  function Put(redux: seq<StoredTweet>, t: StoredTweet): seq<StoredTweet>
  {
    if redux == [] then [t]
    else if redux[0].postId == t.postId then [t] + redux[1..]
    else [redux[0]] + Put(redux[1..], t)
  }

  /** After the assignment the entry is there, every other entry was there
      before, and only an entry with the same id can have gone. */
  lemma {:induction false} PutMembers(redux: seq<StoredTweet>, t: StoredTweet)
    ensures t in Put(redux, t)
    ensures forall u :: u in Put(redux, t) ==> u == t || u in redux
    ensures forall u :: u in redux && u.postId != t.postId ==> u in Put(redux, t)
  {
    if redux != [] && redux[0].postId != t.postId {
      PutMembers(redux[1..], t);
      assert redux == [redux[0]] + redux[1..];
    }
  }

  /** The tweets kept from the author's results, as `$latest_redux`. */
  function Collect(own: seq<SearchResult>, links: string -> string): seq<StoredTweet>
  {
    if own == [] then []
    else Put(Collect(own[..|own| - 1], links), Stored(own[|own| - 1], links))
  }

  lemma {:induction false} CollectMembers(own: seq<SearchResult>, links: string -> string)
    ensures forall u :: u in Collect(own, links) ==> exists r :: r in own && u == Stored(r, links)
  {
    if own != [] {
      var init := own[..|own| - 1];
      CollectMembers(init, links);
      PutMembers(Collect(init, links), Stored(own[|own| - 1], links));
      forall u | u in Collect(own, links) ensures exists r :: r in own && u == Stored(r, links) {
        if u == Stored(own[|own| - 1], links) {
          assert own[|own| - 1] in own;
        } else {
          assert u in Collect(init, links);
          var r :| r in init && u == Stored(r, links);
          assert r in own;
        }
      }
    }
  }

  lemma OwnSnoc(results: seq<SearchResult>, i: nat, name: string)
    requires i < |results|
    ensures Own(results[..i + 1], name)
         == Own(results[..i], name) + (if results[i].fromUser == name then [results[i]] else [])
  {
    assert results[..i + 1][..i] == results[..i];
  }

  lemma CollectSnoc(own: seq<SearchResult>, r: SearchResult, links: string -> string)
    ensures Collect(own + [r], links) == Put(Collect(own, links), Stored(r, links))
  {
    assert (own + [r])[..|own|] == own;
  }

  /** The ids of the feed's tweets. */
  function Ids(tweets: seq<StoredTweet>): set<int> { set t | t in tweets :: t.postId }

  /** The ids of search results. */
  function ResultIds(results: seq<SearchResult>): set<int> { set r | r in results :: r.id }

  lemma IdsGrow(a: seq<StoredTweet>, b: seq<StoredTweet>)
    requires multiset(a) <= multiset(b)
    ensures Ids(a) <= Ids(b)
  {
    forall id | id in Ids(a) ensures id in Ids(b) {
      var u :| u in a && u.postId == id;
      assert u in multiset(b);
    }
  }

  /** Tweets that together make up a list contribute exactly its ids. */
  lemma IdsUnion(a: seq<StoredTweet>, b: seq<StoredTweet>, c: seq<StoredTweet>)
    requires multiset(a) == multiset(b) + multiset(c)
    ensures Ids(a) == Ids(b) + Ids(c)
  {
    forall id | id in Ids(a) ensures id in Ids(b) + Ids(c) {
      var u :| u in a && u.postId == id;
      assert u in multiset(a);
      if u in multiset(b) { assert u in b; } else { assert u in c; }
    }
    forall id | id in Ids(b) + Ids(c) ensures id in Ids(a) {
      if id in Ids(b) {
        var u :| u in b && u.postId == id;
        assert u in multiset(a);
      } else {
        var u :| u in c && u.postId == id;
        assert u in multiset(a);
      }
    }
  }

  lemma IdsCons(t: StoredTweet, rest: seq<StoredTweet>)
    ensures Ids([t] + rest) == {t.postId} + Ids(rest)
  {
    assert forall u :: u in [t] + rest <==> u == t || u in rest;
  }

  /** Storing a tweet by id adds its id and no other. */
  lemma {:induction false} PutIds(redux: seq<StoredTweet>, t: StoredTweet)
    ensures Ids(Put(redux, t)) == Ids(redux) + {t.postId}
  {
    if redux == [] {
      assert Put(redux, t) == [t];
    } else {
      assert redux == [redux[0]] + redux[1..];
      IdsCons(redux[0], redux[1..]);
      if redux[0].postId == t.postId {
        IdsCons(t, redux[1..]);
      } else {
        PutIds(redux[1..], t);
        IdsCons(redux[0], Put(redux[1..], t));
      }
    }
  }

  lemma ResultIdsSnoc(init: seq<SearchResult>, r: SearchResult)
    ensures ResultIds(init + [r]) == ResultIds(init) + {r.id}
  {
    assert forall x :: x in init + [r] <==> x in init || x == r;
  }

  /** `$latest_redux` holds one entry for every id among the kept results,
      and no other. */
  lemma {:induction false} CollectIds(own: seq<SearchResult>, links: string -> string)
    ensures Ids(Collect(own, links)) == ResultIds(own)
  {
    if own != [] {
      var init := own[..|own| - 1];
      CollectIds(init, links);
      PutIds(Collect(init, links), Stored(own[|own| - 1], links));
      ResultIdsSnoc(init, own[|own| - 1]);
      assert own == init + [own[|own| - 1]];
    }
  }

  /** `$latest_redux` after the tweets the feed already has are removed. */
  function Fresh(redux: seq<StoredTweet>, current: seq<StoredTweet>): seq<StoredTweet>
  {
    if redux == [] then []
    else
      (if redux[0].postId in Ids(current) then [] else [redux[0]]) + Fresh(redux[1..], current)
  }

  /** Exactly the entries whose id the feed does not have survive. */
  lemma {:induction false} FreshMembers(redux: seq<StoredTweet>, current: seq<StoredTweet>)
    ensures forall u :: u in Fresh(redux, current) <==> u in redux && u.postId !in Ids(current)
  {
    if redux != [] {
      FreshMembers(redux[1..], current);
      assert redux == [redux[0]] + redux[1..];
    }
  }

  /** The ids left are those the feed does not have. */
  lemma FreshIds(redux: seq<StoredTweet>, current: seq<StoredTweet>)
    ensures Ids(Fresh(redux, current)) == Ids(redux) - Ids(current)
  {
    FreshMembers(redux, current);
  }

  /** `$names[$name] = $data` on the ordered handle list. */
  function SetHandle(handles: seq<(string, Handle)>, name: string, data: Handle): (r: seq<(string, Handle)>)
    ensures (name, data) in r
  {
    if handles == [] then [(name, data)]
    else if handles[0].0 == name then [(name, data)] + handles[1..]
    else [handles[0]] + SetHandle(handles[1..], name, data)
  }

  /** The authors listed in the handles. */
  function Names(handles: seq<(string, Handle)>): set<string> { set e | e in handles :: e.0 }

  lemma NamesCons(e: (string, Handle), rest: seq<(string, Handle)>)
    ensures Names([e] + rest) == {e.0} + Names(rest)
  {
    assert forall x :: x in [e] + rest <==> x == e || x in rest;
  }

  /** The position of the author's entry: the first one with that name. */
  function IndexOf(handles: seq<(string, Handle)>, name: string): (i: nat)
    requires name in Names(handles)
    ensures i < |handles| && handles[i].0 == name
    ensures forall j :: 0 <= j < i ==> handles[j].0 != name
  {
    assert handles == [handles[0]] + handles[1..];
    NamesCons(handles[0], handles[1..]);
    if handles[0].0 == name then 0 else 1 + IndexOf(handles[1..], name)
  }

  /** `$names[$name] = $data` replaces an author's entry where it stands and
      keeps every other entry; an author not yet listed is appended. */
  lemma SetHandleInPlace(handles: seq<(string, Handle)>, name: string, data: Handle)
    ensures name !in Names(handles) ==> SetHandle(handles, name, data) == handles + [(name, data)]
    ensures name in Names(handles) ==>
      SetHandle(handles, name, data) == handles[IndexOf(handles, name) := (name, data)]
  {
    if name in Names(handles) {
      SetHandleReplaces(handles, name, data);
    } else {
      SetHandleAppends(handles, name, data);
    }
  }

  lemma {:induction false} SetHandleAppends(handles: seq<(string, Handle)>, name: string, data: Handle)
    requires name !in Names(handles)
    ensures SetHandle(handles, name, data) == handles + [(name, data)]
  {
    if handles != [] {
      var rest := handles[1..];
      assert handles == [handles[0]] + rest;
      NamesCons(handles[0], rest);
      SetHandleAppends(rest, name, data);
    }
  }

  lemma {:induction false} SetHandleReplaces(handles: seq<(string, Handle)>, name: string, data: Handle)
    requires name in Names(handles)
    ensures SetHandle(handles, name, data) == handles[IndexOf(handles, name) := (name, data)]
  {
    var rest := handles[1..];
    assert handles == [handles[0]] + rest;
    if handles[0].0 != name {
      NamesCons(handles[0], rest);
      SetHandleReplaces(rest, name, data);
      var i := IndexOf(rest, name);
      assert [handles[0]] + rest[i := (name, data)] == handles[i + 1 := (name, data)];
    }
  }

  lemma {:induction false} SetHandleTwice(handles: seq<(string, Handle)>, name: string, d1: Handle, d2: Handle)
    ensures SetHandle(SetHandle(handles, name, d1), name, d2) == SetHandle(handles, name, d2)
  {
    if handles != [] && handles[0].0 != name {
      SetHandleTwice(handles[1..], name, d1, d2);
    }
  }

  /** What the import has built so far. */
  datatype Progress = Progress(handles: seq<(string, Handle)>, tweets: seq<StoredTweet>, dirty: bool)

  /** The author's data after the tweets kept: the id and avatar of the
      last of them. */
  function Updated(data: Handle, own: seq<SearchResult>): Handle
  {
    if own == [] then data
    else data.(lastPostId := own[|own| - 1].id, avatarUrl := own[|own| - 1].profileImageUrl)
  }

  /** What the loop over one author's results has built after keeping
      `own`: the kept tweets by id, the author's data and the handles. */
  function Scanned(handles0: seq<(string, Handle)>, name: string, data0: Handle,
                   own: seq<SearchResult>, links: string -> string): (seq<StoredTweet>, Handle, seq<(string, Handle)>)
  {
    (Collect(own, links), Updated(data0, own),
     if own == [] then handles0 else SetHandle(handles0, name, Updated(data0, own)))
  }

  lemma ScannedSnoc(handles0: seq<(string, Handle)>, name: string, data0: Handle,
                    own: seq<SearchResult>, tweet: SearchResult, links: string -> string)
    ensures var (redux, data, handles) := Scanned(handles0, name, data0, own, links);
      var next := data.(lastPostId := tweet.id, avatarUrl := tweet.profileImageUrl);
      Scanned(handles0, name, data0, own + [tweet], links)
        == (Put(redux, Stored(tweet, links)), next, SetHandle(handles, name, next))
  {
    CollectSnoc(own, tweet, links);
    var data := Updated(data0, own);
    var next := data.(lastPostId := tweet.id, avatarUrl := tweet.profileImageUrl);
    assert Updated(data0, own + [tweet]) == next;
    if own != [] {
      SetHandleTwice(handles0, name, data, next);
    }
  }

  /** The results `importTweets` keeps for one author: the author's own,
      up to the first one older than the feed's start; none when the query
      cannot be formed. */
  function Kept(name: string, data: Handle, hashtag: string, startTime: int,
                search: (string, Params) -> Option<seq<SearchResult>>): seq<SearchResult>
  {
    match LatestResults(name, hashtag, data.lastPostId, search)
    case Err(_) => []
    case Ok(results) => Own(results[..RecentRun(results, startTime)], name)
  }

  /** Every kept result is the author's and no older than the feed's start. */
  lemma KeptMembers(name: string, data: Handle, hashtag: string, startTime: int,
                    search: (string, Params) -> Option<seq<SearchResult>>)
    ensures forall r :: r in Kept(name, data, hashtag, startTime, search) ==>
              r.fromUser == name && r.createdAt >= startTime
  {
    var found := LatestResults(name, hashtag, data.lastPostId, search);
    if found.Ok? {
      var results := found.value;
      var n := RecentRun(results, startTime);
      OwnMembers(results[..n], name);
      assert forall r :: r in results[..n] ==> r.createdAt >= startTime;
    }
  }

  /** One author of the import (twitter_widget/Twitterfeed.php:87-154). */
  function Author(p: Progress, name: string, data: Handle, hashtag: string, startTime: int,
                  search: (string, Params) -> Option<seq<SearchResult>>,
                  links: string -> string): Result<Progress, string>
  {
    match LatestResults(name, hashtag, data.lastPostId, search)
    case Err(e) => Err(e)
    case Ok(_) => Ok(Absorb(p, name, data, Kept(name, data, hashtag, startTime, search), links))
  }

  /** The author's kept results taken into the feed: the author's data
      updated, and the tweets the feed lacks merged in, newest first. */
  function Absorb(p: Progress, name: string, data: Handle, own: seq<SearchResult>,
                  links: string -> string): Progress
  {
    var handles := if own == [] then p.handles else SetHandle(p.handles, name, Updated(data, own));
    var unseen := Fresh(Collect(own, links), p.tweets);
    if unseen != [] then Progress(handles, SortDown(p.tweets + unseen, TweetId), true)
    else p.(handles := handles)
  }

  /** Where the import stands: the feed built so far, and the exception
      that stopped it, if any. */
  datatype Outcome = Outcome(progress: Progress, error: Option<string>)

  /** The authors in turn.  The first author whose search raises stops the
      import; the feed keeps what the authors before it built. */
  function Authors(p: Progress, authors: seq<(string, Handle)>, hashtag: string, startTime: int,
                   search: (string, Params) -> Option<seq<SearchResult>>,
                   links: string -> string): Outcome
    decreases |authors|
  {
    if authors == [] then Outcome(p, None)
    else match Author(p, authors[0].0, authors[0].1, hashtag, startTime, search, links)
      case Err(e) => Outcome(p, Some(e))
      case Ok(q) => Authors(q, authors[1..], hashtag, startTime, search, links)
  }

  /** The ids of every author's kept results. */
  function KeptIds(authors: seq<(string, Handle)>, hashtag: string, startTime: int,
                   search: (string, Params) -> Option<seq<SearchResult>>): set<int>
    decreases |authors|
  {
    if authors == [] then {}
    else ResultIds(Kept(authors[0].0, authors[0].1, hashtag, startTime, search))
         + KeptIds(authors[1..], hashtag, startTime, search)
  }

  /** Taking kept results in keeps every tweet the feed had and merges
      exactly the stored results whose ids the feed lacked, so that the
      feed then has an id for every kept result; it leaves the feed newest
      first whenever it changes and marks it dirty exactly then.  Every
      tweet added is the author's and no older than the feed's start. */
  lemma AbsorbAdds(p: Progress, name: string, data: Handle, startTime: int, own: seq<SearchResult>,
                   links: string -> string)
    requires forall r :: r in own ==> r.fromUser == name && r.createdAt >= startTime
    ensures var q := Absorb(p, name, data, own, links);
      && (q.tweets == p.tweets || (SortedDown(q.tweets, TweetId) && |q.tweets| > |p.tweets|))
      && multiset(q.tweets) == multiset(p.tweets) + multiset(Fresh(Collect(own, links), p.tweets))
      && Ids(q.tweets) == Ids(p.tweets) + ResultIds(own)
      && (forall t :: t in q.tweets && t !in p.tweets ==>
            t.author == name && t.createdAt >= startTime && t.postId !in Ids(p.tweets))
      && (q.dirty <==> p.dirty || q.tweets != p.tweets)
  {
    var q := Absorb(p, name, data, own, links);
    var unseen := Fresh(Collect(own, links), p.tweets);
    if unseen != [] {
      assert multiset(q.tweets) == multiset(p.tweets) + multiset(unseen);
    }
    assert Ids(q.tweets) == Ids(p.tweets) + ResultIds(own) by {
      CollectIds(own, links);
      FreshIds(Collect(own, links), p.tweets);
      IdsUnion(q.tweets, p.tweets, unseen);
    }
    forall t | t in q.tweets && t !in p.tweets
      ensures t.author == name && t.createdAt >= startTime && t.postId !in Ids(p.tweets)
    {
      assert t in multiset(q.tweets);
      assert t in unseen;
      FreshMembers(Collect(own, links), p.tweets);
      CollectMembers(own, links);
      var r :| r in own && t == Stored(r, links);
    }
  }

  /** One author's iteration: the feed keeps its old tweets, gains exactly
      the stored tweets of the author's kept results whose ids it lacked,
      and so has an id for each of those results. */
  lemma AuthorAdds(p: Progress, name: string, data: Handle, hashtag: string, startTime: int,
                   search: (string, Params) -> Option<seq<SearchResult>>, links: string -> string)
    requires Author(p, name, data, hashtag, startTime, search, links).Ok?
    ensures var q := Author(p, name, data, hashtag, startTime, search, links).value;
      var own := Kept(name, data, hashtag, startTime, search);
      && (q.tweets == p.tweets || (SortedDown(q.tweets, TweetId) && |q.tweets| > |p.tweets|))
      && multiset(q.tweets) == multiset(p.tweets) + multiset(Fresh(Collect(own, links), p.tweets))
      && Ids(q.tweets) == Ids(p.tweets) + ResultIds(own)
      && (forall t :: t in q.tweets && t !in p.tweets ==>
            t.author == name && t.createdAt >= startTime && t.postId !in Ids(p.tweets))
      && (q.dirty <==> p.dirty || q.tweets != p.tweets)
  {
    KeptMembers(name, data, hashtag, startTime, search);
    AbsorbAdds(p, name, data, startTime, Kept(name, data, hashtag, startTime, search), links);
  }

  /** The whole import: it keeps every tweet the feed had, gains an id for
      every kept result of every author, leaves the feed newest first
      whenever it changes, marks it dirty exactly then, and adds only
      tweets of the feed's authors, no older than the feed's start, with
      ids the feed lacked. */
  lemma ImportAdds(p: Progress, authors: seq<(string, Handle)>, hashtag: string, startTime: int,
                   search: (string, Params) -> Option<seq<SearchResult>>,
                   links: string -> string)
    requires Authors(p, authors, hashtag, startTime, search, links).error.None?
    ensures var q := Authors(p, authors, hashtag, startTime, search, links).progress;
      && (q.tweets == p.tweets || (SortedDown(q.tweets, TweetId) && |q.tweets| > |p.tweets|))
      && multiset(p.tweets) <= multiset(q.tweets)
      && Ids(q.tweets) == Ids(p.tweets) + KeptIds(authors, hashtag, startTime, search)
      && (forall t :: t in q.tweets && t !in p.tweets ==>
            t.createdAt >= startTime && t.postId !in Ids(p.tweets)
            && exists k :: 0 <= k < |authors| && t.author == authors[k].0)
      && (q.dirty <==> p.dirty || q.tweets != p.tweets)
  {
    ImportGrows(p, authors, hashtag, startTime, search, links);
    ImportFromAuthors(p, authors, hashtag, startTime, search, links);
    ImportIds(p, authors, hashtag, startTime, search, links);
  }

  /** The import keeps every tweet the feed had, leaves the feed newest
      first whenever it changes, and marks it dirty exactly then. */
  lemma {:induction false} ImportGrows(p: Progress, authors: seq<(string, Handle)>, hashtag: string, startTime: int,
                                       search: (string, Params) -> Option<seq<SearchResult>>,
                                       links: string -> string)
    requires Authors(p, authors, hashtag, startTime, search, links).error.None?
    ensures var q := Authors(p, authors, hashtag, startTime, search, links).progress;
      && (q.tweets == p.tweets || (SortedDown(q.tweets, TweetId) && |q.tweets| > |p.tweets|))
      && multiset(p.tweets) <= multiset(q.tweets)
      && (q.dirty <==> p.dirty || q.tweets != p.tweets)
    decreases |authors|
  {
    if authors != [] {
      var q1 := Author(p, authors[0].0, authors[0].1, hashtag, startTime, search, links).value;
      assert Authors(p, authors, hashtag, startTime, search, links)
          == Authors(q1, authors[1..], hashtag, startTime, search, links);
      assert && (q1.tweets == p.tweets || (SortedDown(q1.tweets, TweetId) && |q1.tweets| > |p.tweets|))
             && multiset(p.tweets) <= multiset(q1.tweets)
             && (q1.dirty <==> p.dirty || q1.tweets != p.tweets)
      by {
        AuthorAdds(p, authors[0].0, authors[0].1, hashtag, startTime, search, links);
      }
      ImportGrows(q1, authors[1..], hashtag, startTime, search, links);
    }
  }

  /** Every tweet the import adds is by one of the feed's authors, no older
      than the feed's start, with an id the feed lacked. */
  lemma {:induction false} ImportFromAuthors(p: Progress, authors: seq<(string, Handle)>, hashtag: string,
                                             startTime: int,
                                             search: (string, Params) -> Option<seq<SearchResult>>,
                                             links: string -> string)
    requires Authors(p, authors, hashtag, startTime, search, links).error.None?
    ensures var q := Authors(p, authors, hashtag, startTime, search, links).progress;
      forall t :: t in q.tweets && t !in p.tweets ==>
        t.createdAt >= startTime && t.postId !in Ids(p.tweets)
        && exists k :: 0 <= k < |authors| && t.author == authors[k].0
    decreases |authors|
  {
    if authors != [] {
      var q1 := Author(p, authors[0].0, authors[0].1, hashtag, startTime, search, links).value;
      var q := Authors(p, authors, hashtag, startTime, search, links).progress;
      assert q == Authors(q1, authors[1..], hashtag, startTime, search, links).progress;
      assert && Ids(p.tweets) <= Ids(q1.tweets)
             && (forall t :: t in q1.tweets && t !in p.tweets ==>
                   t.author == authors[0].0 && t.createdAt >= startTime && t.postId !in Ids(p.tweets))
      by {
        AuthorAdds(p, authors[0].0, authors[0].1, hashtag, startTime, search, links);
        IdsGrow(p.tweets, q1.tweets);
      }
      ImportFromAuthors(q1, authors[1..], hashtag, startTime, search, links);
      forall t | t in q.tweets && t !in p.tweets
        ensures t.createdAt >= startTime && t.postId !in Ids(p.tweets)
        ensures exists k :: 0 <= k < |authors| && t.author == authors[k].0
      {
        if t in q1.tweets {
          assert t.author == authors[0].0;
        } else {
          var k :| 0 <= k < |authors[1..]| && t.author == authors[1..][k].0;
          assert t.author == authors[k + 1].0;
        }
      }
    }
  }

  /** The ids the whole import leaves in the feed: the feed's own and one
      for every kept result of every author. */
  lemma {:induction false} ImportIds(p: Progress, authors: seq<(string, Handle)>, hashtag: string, startTime: int,
                                     search: (string, Params) -> Option<seq<SearchResult>>,
                                     links: string -> string)
    requires Authors(p, authors, hashtag, startTime, search, links).error.None?
    ensures Ids(Authors(p, authors, hashtag, startTime, search, links).progress.tweets)
            == Ids(p.tweets) + KeptIds(authors, hashtag, startTime, search)
    decreases |authors|
  {
    if authors != [] {
      var q1 := Author(p, authors[0].0, authors[0].1, hashtag, startTime, search, links).value;
      assert Authors(p, authors, hashtag, startTime, search, links)
          == Authors(q1, authors[1..], hashtag, startTime, search, links);
      ghost var first := Kept(authors[0].0, authors[0].1, hashtag, startTime, search);
      assert Ids(q1.tweets) == Ids(p.tweets) + ResultIds(first) by {
        AuthorAdds(p, authors[0].0, authors[0].1, hashtag, startTime, search, links);
      }
      ImportIds(q1, authors[1..], hashtag, startTime, search, links);
    }
  }

  class Feed {
    var twitterHandles: seq<(string, Handle)>
    var contentTweets: seq<StoredTweet>
    var hashtag: string
    var startTime: int
    /** How many times the feed has been saved. */
    var saves: nat

    function Snapshot(): Progress
      reads this
    {
      Progress(twitterHandles, contentTweets, false)
    }

    constructor (handles: seq<(string, Handle)>, tweets: seq<StoredTweet>, hashtag: string, startTime: int)
      ensures twitterHandles == handles && contentTweets == tweets
      ensures this.hashtag == hashtag && this.startTime == startTime && saves == 0
    {
      twitterHandles, contentTweets := handles, tweets;
      this.hashtag, this.startTime := hashtag, startTime;
      saves := 0;
    }

    /** `importTweets` (twitter_widget/Twitterfeed.php:83-159): every
        author in turn, then one save when anything was added.  An author
        without a name, in a feed without a hashtag, raises the exception
        of `_getLatestTweets`, which leaves the authors before it imported
        and the feed unsaved. */
    method ImportTweets(search: (string, Params) -> Option<seq<SearchResult>>, links: string -> string)
      returns (error: Option<string>)
      modifies this
      ensures hashtag == old(hashtag) && startTime == old(startTime)
      ensures var o := Authors(old(Snapshot()), old(twitterHandles), hashtag, startTime, search, links);
        && o.error == error
        && o.progress.handles == twitterHandles && o.progress.tweets == contentTweets
        && (error.None? ==> (o.progress.dirty <==> saves != old(saves)))
      ensures saves == old(saves) || (error.None? && saves == old(saves) + 1)
    {
      var authors := twitterHandles;
      var dirty := false;
      ghost var start := Snapshot();
      var k := 0;
      error := None;
      while k < |authors| && error.None?
        invariant k <= |authors|
        invariant hashtag == old(hashtag) && startTime == old(startTime) && saves == old(saves)
        invariant Authors(start, authors, hashtag, startTime, search, links)
               == if error.Some? then Outcome(Progress(twitterHandles, contentTweets, dirty), error)
                  else Authors(Progress(twitterHandles, contentTweets, dirty), authors[k..],
                               hashtag, startTime, search, links)
      {
        assert authors[k..][1..] == authors[k + 1..];
        var outcome := ImportAuthor(authors[k].0, authors[k].1, dirty, search, links);
        if outcome.Err? {
          error := Some(outcome.error);
        } else {
          dirty := outcome.value;
        }
        k := k + 1;
      }
      if error.None? && dirty {
        saves := saves + 1;
      }
    }

    /** The body of the loop over authors; the result is the dirty flag
        after it. */
    method ImportAuthor(name: string, data0: Handle, dirty: bool,
                        search: (string, Params) -> Option<seq<SearchResult>>, links: string -> string)
      returns (outcome: Result<bool, string>)
      modifies this
      ensures hashtag == old(hashtag) && startTime == old(startTime) && saves == old(saves)
      ensures var r := Author(Progress(old(twitterHandles), old(contentTweets), dirty),
                              name, data0, hashtag, startTime, search, links);
        && (r.Err? <==> outcome.Err?)
        && (r.Err? ==> outcome.error == r.error
                       && twitterHandles == old(twitterHandles) && contentTweets == old(contentTweets))
        && (r.Ok? ==> twitterHandles == r.value.handles && contentTweets == r.value.tweets
                      && outcome.value == r.value.dirty)
    {
      var found := LatestResults(name, hashtag, data0.lastPostId, search);
      if found.Err? {
        return Err(found.error);
      }
      var latestTweets := found.value;
      var latestRedux, data := ScanResults(name, data0, latestTweets, links);
      latestRedux := Fresh(latestRedux, contentTweets);
      if latestRedux != [] {
        contentTweets := SortDown(contentTweets + latestRedux, TweetId);
        return Ok(true);
      }
      return Ok(dirty);
    }

    /** The loop over one author's results: stop at the first older than
        the feed, skip other authors' tweets, keep the rest by id and
        record the last one kept in the author's data. */
    method ScanResults(name: string, data0: Handle, latestTweets: seq<SearchResult>, links: string -> string)
      returns (latestRedux: seq<StoredTweet>, data: Handle)
      modifies this
      ensures (latestRedux, data, twitterHandles)
           == Scanned(old(twitterHandles), name, data0,
                      Own(latestTweets[..RecentRun(latestTweets, startTime)], name), links)
      ensures contentTweets == old(contentTweets) && hashtag == old(hashtag)
      ensures startTime == old(startTime) && saves == old(saves)
    {
      data := data0;
      latestRedux := [];
      ghost var own: seq<SearchResult> := [];
      var i := 0;
      while i < |latestTweets|
        invariant i <= RecentRun(latestTweets, startTime)
        invariant own == Own(latestTweets[..i], name)
        invariant (latestRedux, data, twitterHandles) == Scanned(old(twitterHandles), name, data0, own, links)
        invariant contentTweets == old(contentTweets) && hashtag == old(hashtag)
        invariant startTime == old(startTime) && saves == old(saves)
      {
        var tweet := latestTweets[i];
        if tweet.createdAt < startTime {
          break;
        }
        OwnSnoc(latestTweets, i, name);
        if tweet.fromUser == name {
          ScannedSnoc(old(twitterHandles), name, data0, own, tweet, links);
          latestRedux, data := KeepTweet(name, tweet, latestRedux, data, links);
          own := own + [tweet];
        }
        i := i + 1;
      }
      assert i == RecentRun(latestTweets, startTime);
    }

    /** One kept tweet: stored under its id, and its id and avatar
        recorded as the author's. */
    method KeepTweet(name: string, tweet: SearchResult, latestRedux: seq<StoredTweet>, data: Handle,
                     links: string -> string)
      returns (redux: seq<StoredTweet>, next: Handle)
      modifies this
      ensures redux == Put(latestRedux, Stored(tweet, links))
      ensures next == data.(lastPostId := tweet.id, avatarUrl := tweet.profileImageUrl)
      ensures twitterHandles == SetHandle(old(twitterHandles), name, next)
      ensures contentTweets == old(contentTweets) && hashtag == old(hashtag)
      ensures startTime == old(startTime) && saves == old(saves)
    {
      redux := Put(latestRedux, Stored(tweet, links));
      next := data.(lastPostId := tweet.id, avatarUrl := tweet.profileImageUrl);
      twitterHandles := SetHandle(twitterHandles, name, next);
    }
  }
}
