/** The article feed, GET / of routes/api/articles.js: a block filter over the
    date-sorted articles, then a preference filter without repeats. */
module Feed {
  import opened Wrappers
  import opened Http
  import opened ArticleModel
  import opened Sequences
  import Users

  /** How many entries of `s` are by somebody other than `u`. */
  function CountOthers(s: seq<UserId>, u: UserId): (n: nat)
    ensures n <= |s|
    ensures n > 0 <==> exists j :: 0 <= j < |s| && s[j] != u
  {
    if s == [] then 0
    else
      var n := CountOthers(Init(s), u) + (if Last(s) != u then 1 else 0);
      assert forall j :: 0 <= j < |s| - 1 ==> s[j] == Init(s)[j];
      n
  }

  /** How many times the block filter pushes `a` for the requester: once when nobody has
      blocked it, otherwise once per block entry made by somebody other than the requester. */
  function PushCount(a: Article, requester: UserId): (n: nat)
    ensures n <= if a.blocks == [] then 1 else |a.blocks|
    ensures n > 0 <==> a.blocks == [] || exists j :: 0 <= j < |a.blocks| && a.blocks[j] != requester
  {
    if a.blocks == [] then 1 else CountOthers(a.blocks, requester)
  }

  /** No two entries are the same document. The collection's primary key guarantees this
      of every list the database returns. */
  predicate DistinctIds(s: seq<Article>) {
    forall i, j :: 0 <= i < j < |s| ==> s[i].id != s[j].id
  }

  /** `n` copies of `a`. */
  function Repeat(a: Article, n: nat): (r: seq<Article>)
    ensures |r| == n
    ensures forall x :: x in r ==> x == a
  {
    if n == 0 then [] else Repeat(a, n - 1) + [a]
  }

  /** The list the block filter builds: each article, in order, pushed PushCount times. */
  function BlockFiltered(sorted: seq<Article>, requester: UserId): (r: seq<Article>)
    ensures forall x :: x in r <==> x in sorted && PushCount(x, requester) > 0
  {
    if sorted == [] then []
    else
      assert sorted == Init(sorted) + [Last(sorted)];
      BlockFiltered(Init(sorted), requester) + Repeat(Last(sorted), PushCount(Last(sorted), requester))
  }

  /** Some type of the article is among the preferences. */
  predicate Shared(types: seq<string>, prefs: seq<string>) {
    exists t :: t in types && t in prefs
  }

  /** Appends `a` when it matched and is not yet in the list. */
  function Step(feed: seq<Article>, a: Article, matched: bool): seq<Article> {
    if matched && a !in feed then feed + [a] else feed
  }

  /** The preference filter: the articles sharing a type with the preferences, each kept
      at its first occurrence. */
  function Preferred(ua: seq<Article>, prefs: seq<string>): (r: seq<Article>)
    ensures forall x :: x in r <==> x in ua && Shared(x.articleType, prefs)
    ensures NoDuplicates(r)
  {
    if ua == [] then []
    else
      assert ua == Init(ua) + [Last(ua)];
      Step(Preferred(Init(ua), prefs), Last(ua), Shared(Last(ua).articleType, prefs))
  }

  /** The feed a user with preferences `prefs` gets. */
  function FeedOf(sorted: seq<Article>, requester: UserId, prefs: seq<string>): seq<Article> {
    Preferred(BlockFiltered(sorted, requester), prefs)
  }

  /** The block filter as the handler runs it: an article with no blocks is pushed once,
      otherwise it is pushed once for every block entry made by somebody else. */
  method FilterBlocked(sorted: seq<Article>, requester: UserId) returns (userArticles: seq<Article>)
    ensures userArticles == BlockFiltered(sorted, requester)
  {
    userArticles := [];
    var i := 0;
    while i < |sorted|
      invariant 0 <= i <= |sorted|
      invariant userArticles == BlockFiltered(sorted[..i], requester)
    {
      var a := sorted[i];
      ghost var before := userArticles;
      if |a.blocks| > 0 {
        var j := 0;
        while j < |a.blocks|
          invariant 0 <= j <= |a.blocks|
          invariant userArticles == before + Repeat(a, CountOthers(a.blocks[..j], requester))
        {
          assert Init(a.blocks[..j + 1]) == a.blocks[..j];
          if requester != a.blocks[j] {
            userArticles := userArticles + [a];
          }
          j := j + 1;
        }
        assert a.blocks[..j] == a.blocks;
      } else {
        userArticles := userArticles + [a];
      }
      assert Init(sorted[..i + 1]) == sorted[..i];
      i := i + 1;
    }
    assert sorted[..i] == sorted;
  }

  /** The preference filter as the handler runs it: for each article, each of its types and
      each preference, push the article on a match unless it is already in the list. The
      preferences are read from the requesting user; when that user is missing, the first
      read throws and the handler answers 500. */
  method PreferredArticles(userArticles: seq<Article>, prefs: Option<seq<string>>) returns (r: Response<seq<Article>>)
    ensures prefs.Some? ==> r == Ok(Preferred(userArticles, prefs.value))
    ensures prefs.None? ==>
      r == if exists k :: 0 <= k < |userArticles| && userArticles[k].articleType != []
           then Err(ServerError, [ServerErrorText]) else Ok([])
  {
    var feed := [];
    var i := 0;
    while i < |userArticles|
      invariant 0 <= i <= |userArticles|
      invariant prefs.Some? ==> feed == Preferred(userArticles[..i], prefs.value)
      invariant prefs.None? ==> feed == [] && forall k :: 0 <= k < i ==> userArticles[k].articleType == []
    {
      var a := userArticles[i];
      ghost var before := feed;
      var t := 0;
      while t < |a.articleType|
        invariant 0 <= t <= |a.articleType|
        invariant prefs.Some? ==> feed == Step(before, a, Shared(a.articleType[..t], prefs.value))
        invariant prefs.None? ==> t == 0 && feed == before
      {
        if prefs.None? {
          return Err(ServerError, [ServerErrorText]);
        }
        var ps := prefs.value;
        var p := 0;
        while p < |ps|
          invariant 0 <= p <= |ps|
          invariant feed == Step(before, a, Shared(a.articleType[..t], ps) || a.articleType[t] in ps[..p])
        {
          assert ps[..p + 1] == ps[..p] + [ps[p]];
          if ps[p] == a.articleType[t] && a !in feed {
            feed := feed + [a];
          }
          p := p + 1;
        }
        assert ps[..p] == ps;
        assert a.articleType[..t + 1] == a.articleType[..t] + [a.articleType[t]];
        assert Shared(a.articleType[..t + 1], ps) <==> Shared(a.articleType[..t], ps) || a.articleType[t] in ps;
        t := t + 1;
      }
      assert a.articleType[..t] == a.articleType;
      assert Init(userArticles[..i + 1]) == userArticles[..i];
      i := i + 1;
    }
    assert userArticles[..i] == userArticles;
    r := Ok(feed);
  }

  /** GET /: the date-sorted articles through the block filter, then the preference filter
      with the preferences of the requesting user. */
  method GetFeed(sorted: seq<Article>, requester: UserId, users: map<UserId, Users.User>)
    returns (r: Response<seq<Article>>)
    ensures requester in users ==> r == Ok(FeedOf(sorted, requester, users[requester].articlePreferences))
    ensures requester !in users ==>
      r == if exists x :: x in sorted && PushCount(x, requester) > 0 && x.articleType != []
           then Err(ServerError, [ServerErrorText]) else Ok([])
    ensures DistinctIds(sorted) && r.Ok? ==> DistinctIds(r.body)
  {
    var userArticles := FilterBlocked(sorted, requester);
    var prefs := if requester in users then Some(users[requester].articlePreferences) else None;
    r := PreferredArticles(userArticles, prefs);
    if requester in users && DistinctIds(sorted) {
      FeedDocumentsDistinct(sorted, requester, prefs.value);
    }
    if requester !in users {
      assert (exists k :: 0 <= k < |userArticles| && userArticles[k].articleType != []) <==>
             (exists x :: x in sorted && PushCount(x, requester) > 0 && x.articleType != []) by {
        if x :| x in sorted && PushCount(x, requester) > 0 && x.articleType != [] {
          assert x in userArticles;
          var k :| 0 <= k < |userArticles| && userArticles[k] == x;
        }
      }
    }
  }

  /** Appending `n` copies of one article to the block-filtered list adds that article to the
      preference filter's result at most once: exactly when it matches and is new. */
  lemma {:induction false} PreferredRepeat(ua: seq<Article>, a: Article, n: nat, prefs: seq<string>)
    ensures Preferred(ua + Repeat(a, n), prefs) ==
            Step(Preferred(ua, prefs), a, n > 0 && Shared(a.articleType, prefs))
  {
    if n > 0 {
      PreferredRepeat(ua, a, n - 1, prefs);
      var longer := ua + Repeat(a, n);
      assert Init(longer) == ua + Repeat(a, n - 1) && Last(longer) == a;
    } else {
      assert ua + Repeat(a, 0) == ua;
    }
  }

  /** The feed keeps the order of the date-sorted list: it is a subsequence of it. */
  lemma {:induction false} FeedIsSubsequence(sorted: seq<Article>, requester: UserId, prefs: seq<string>)
    ensures IsSubsequence(FeedOf(sorted, requester, prefs), sorted)
    decreases |sorted|
  {
    if sorted != [] {
      var init, a := Init(sorted), Last(sorted);
      FeedIsSubsequence(init, requester, prefs);
      PreferredRepeat(BlockFiltered(init, requester), a, PushCount(a, requester), prefs);
      SubsequenceSnoc(FeedOf(init, requester, prefs), init, a);
      assert sorted == init + [a];
    }
  }

  /** What the feed is: no article twice, in the order of the sorted list, and an article is
      in it exactly when it is in the list, passes the block filter and shares a type with
      the preferences. */
  lemma FeedProperties(sorted: seq<Article>, requester: UserId, prefs: seq<string>)
    ensures NoDuplicates(FeedOf(sorted, requester, prefs))
    ensures IsSubsequence(FeedOf(sorted, requester, prefs), sorted)
    ensures forall x :: x in FeedOf(sorted, requester, prefs) <==>
      x in sorted && PushCount(x, requester) > 0 && Shared(x.articleType, prefs)
  {
    FeedIsSubsequence(sorted, requester, prefs);
  }

  /** The value comparison of the preference filter's `includes` test agrees with the
      handler's comparison of document objects: given a list of distinct documents, the
      feed holds each document at most once. */
  lemma FeedDocumentsDistinct(sorted: seq<Article>, requester: UserId, prefs: seq<string>)
    requires DistinctIds(sorted)
    ensures DistinctIds(FeedOf(sorted, requester, prefs))
  {
  }

  /** The block filter as written: an article nobody blocked passes; one whose every block
      is by the requester is dropped; one blocked by anybody else passes, whether or not the
      requester blocked it too. */
  lemma BlockFilterRule(sorted: seq<Article>, requester: UserId, a: Article)
    requires a in sorted
    ensures a.blocks == [] ==> a in BlockFiltered(sorted, requester)
    ensures a.blocks != [] && (forall j :: 0 <= j < |a.blocks| ==> a.blocks[j] == requester) ==>
      a !in BlockFiltered(sorted, requester)
    ensures (exists j :: 0 <= j < |a.blocks| && a.blocks[j] != requester) ==>
      a in BlockFiltered(sorted, requester)
  {
  }

  /** An article the requester blocked still reaches their feed when somebody else has
      blocked it as well and it matches a preference. */
  lemma BlockedArticleStillShown(sorted: seq<Article>, requester: UserId, prefs: seq<string>, a: Article, other: UserId)
    requires a in sorted && requester in a.blocks && other in a.blocks && other != requester
    requires Shared(a.articleType, prefs)
    ensures a in FeedOf(sorted, requester, prefs)
  {
  }
}
