/** Like, unlike and block as changes to one article's reaction lists
    (routes/api/articles.js, the like, unlike and block routes). */
module Reactions {
  import opened ArticleModel
  import opened Sequences

  /** The list with every entry of `u` filtered out, the others kept in order: a
      subsequence of `s` holding every other entry as often as `s` does. */
  function Without(s: seq<UserId>, u: UserId): (r: seq<UserId>)
    ensures u !in r
    ensures multiset(r) == multiset(s)[u := 0]
    ensures IsSubsequence(r, s)
    ensures u !in s ==> r == s
  {
    if s == [] then []
    else
      assert s == [s[0]] + s[1..];
      var rest := Without(s[1..], u);
      SubsequencePrepend(rest, s[1..], s[0]);
      if s[0] == u then rest else [s[0]] + rest
  }

  /** PUT /like: a like already there is withdrawn (every entry of the requester);
      an unlike is switched into a like; otherwise a like is prepended. */
  function Liked(a: Article, u: UserId): (r: Article)
    ensures r.(likes := a.likes, unlikes := a.unlikes) == a
    ensures u in r.likes <==> u !in a.likes
    ensures u in a.likes ==> r.unlikes == a.unlikes && multiset(r.likes) == multiset(a.likes)[u := 0]
    ensures u !in a.likes ==> r.likes == [u] + a.likes && multiset(r.unlikes) == multiset(a.unlikes)[u := 0]
  {
    if u in a.likes then
      a.(likes := Without(a.likes, u))
    else if u in a.unlikes then
      a.(unlikes := Without(a.unlikes, u), likes := [u] + a.likes)
    else
      a.(likes := [u] + a.likes)
  }

  /** PUT /unlike: the same three cases with the roles of the two lists exchanged. */
  function Unliked(a: Article, u: UserId): (r: Article)
    ensures r.(likes := a.likes, unlikes := a.unlikes) == a
    ensures u in r.unlikes <==> u !in a.unlikes
    ensures u in a.unlikes ==> r.likes == a.likes && multiset(r.unlikes) == multiset(a.unlikes)[u := 0]
    ensures u !in a.unlikes ==> r.unlikes == [u] + a.unlikes && multiset(r.likes) == multiset(a.likes)[u := 0]
  {
    if u in a.unlikes then
      a.(unlikes := Without(a.unlikes, u))
    else if u in a.likes then
      a.(likes := Without(a.likes, u), unlikes := [u] + a.unlikes)
    else
      a.(unlikes := [u] + a.unlikes)
  }

  /** The article with its two reaction lists exchanged. */
  function Mirror(a: Article): Article {
    a.(likes := a.unlikes, unlikes := a.likes)
  }

  /** How many entries `v` has across both reaction lists. */
  function ReactionCount(a: Article, v: UserId): nat {
    multiset(a.likes)[v] + multiset(a.unlikes)[v]
  }

  /** Nobody appears in a list twice. */
  ghost predicate NoRepeats(s: seq<UserId>) {
    forall v :: multiset(s)[v] <= 1
  }

  /** Every user has at most one reaction, and at most one block entry, on the article. */
  ghost predicate WellFormed(a: Article) {
    NoRepeats(a.blocks) && forall v :: ReactionCount(a, v) <= 1
  }

  /** Liking from neutral prepends exactly one like and leaves the unlikes alone;
      a second like restores the article. */
  lemma LikeToggles(a: Article, u: UserId)
    requires u !in a.likes && u !in a.unlikes
    ensures Liked(a, u) == a.(likes := [u] + a.likes)
    ensures Liked(Liked(a, u), u) == a
  {
  }

  /** Liking an article the requester already likes removes every one of their likes
      and nothing else. */
  lemma LikeWithdraws(a: Article, u: UserId)
    requires u in a.likes
    ensures u !in Liked(a, u).likes && Liked(a, u).unlikes == a.unlikes
    ensures multiset(Liked(a, u).likes) == multiset(a.likes)[u := 0]
    ensures |Liked(a, u).likes| == |a.likes| - multiset(a.likes)[u]
  {
    var r := Without(a.likes, u);
    assert |multiset(r)| == |multiset(a.likes)| - multiset(a.likes)[u] by {
      assert multiset(a.likes) == multiset(r) + multiset{u}[u := multiset(a.likes)[u]];
    }
  }

  /** Liking an article the requester has unliked removes all their unlikes and
      prepends exactly one like. */
  lemma LikeSwitches(a: Article, u: UserId)
    requires u !in a.likes && u in a.unlikes
    ensures Liked(a, u).likes == [u] + a.likes
    ensures u !in Liked(a, u).unlikes
    ensures multiset(Liked(a, u).unlikes) == multiset(a.unlikes)[u := 0]
  {
  }

  /** Unlike is like with the two lists exchanged. */
  lemma UnlikeMirrorsLike(a: Article, u: UserId)
    ensures Unliked(a, u) == Mirror(Liked(Mirror(a), u))
  {
  }

  /** Unliking from neutral prepends exactly one unlike; a second unlike restores the article. */
  lemma UnlikeToggles(a: Article, u: UserId)
    requires u !in a.likes && u !in a.unlikes
    ensures Unliked(a, u) == a.(unlikes := [u] + a.unlikes)
    ensures Unliked(Unliked(a, u), u) == a
  {
  }

  /** Like and unlike only add or remove the requester's own entries: with those filtered
      out, both lists are exactly as before (same entries, same order), and every other
      field is untouched. */
  lemma ReactionsTouchOnlyRequester(a: Article, u: UserId)
    ensures Without(Liked(a, u).likes, u) == Without(a.likes, u)
    ensures Without(Liked(a, u).unlikes, u) == Without(a.unlikes, u)
    ensures Without(Unliked(a, u).likes, u) == Without(a.likes, u)
    ensures Without(Unliked(a, u).unlikes, u) == Without(a.unlikes, u)
    ensures Liked(a, u).(likes := a.likes, unlikes := a.unlikes) == a
    ensures Unliked(a, u).(likes := a.likes, unlikes := a.unlikes) == a
  {
  }

  /** The reaction counts of everybody else are unchanged, and a requester with at most
      one reaction before has at most one after. */
  lemma ReactionCounts(a: Article, u: UserId, v: UserId)
    ensures v != u ==> ReactionCount(Liked(a, u), v) == ReactionCount(a, v)
    ensures v != u ==> ReactionCount(Unliked(a, u), v) == ReactionCount(a, v)
    ensures ReactionCount(a, u) <= 1 ==> ReactionCount(Liked(a, u), u) <= 1
    ensures ReactionCount(a, u) <= 1 ==> ReactionCount(Unliked(a, u), u) <= 1
  {
  }

  /** Like and unlike keep an article well formed. */
  lemma ReactionsKeepWellFormed(a: Article, u: UserId)
    requires WellFormed(a)
    ensures WellFormed(Liked(a, u)) && WellFormed(Unliked(a, u))
  {
    forall v ensures ReactionCount(Liked(a, u), v) <= 1 && ReactionCount(Unliked(a, u), v) <= 1 {
      ReactionCounts(a, u, v);
    }
  }

  /** Prepending a block for a user with no block entry keeps the list free of repeats
      and gives that user exactly one entry. */
  lemma BlockKeepsNoRepeats(s: seq<UserId>, u: UserId)
    requires NoRepeats(s) && u !in s
    ensures NoRepeats([u] + s) && multiset([u] + s)[u] == 1
  {
  }
}
