/** The article service's read operations: the filtered, sorted and paged
    listing of all articles, the caller's own and favourite articles, and the
    most liked recent article. A listing is given by article ids; the joined
    author, category and comment documents are left to the reader of the ids.
    A collection's natural order is ascending id. */
module ArticleQueries {
  import opened Util
  import opened Records

  /** The query string of the list endpoints: the paging (`limit` and
      `offset`, None when absent or empty) and what selects and orders the
      articles (`sort` is its numeric value when present). */
  datatype ListParams = ListParams(limit: Option<nat>, offset: Option<nat>, query: ListQuery)

  datatype ListQuery = ListQuery(sort: Option<int>, category: Option<Id>, text: string)

  /** The extra query-string flags of the caller's listing. */
  datatype UserListParams = UserListParams(
    limit: Option<nat>,
    offset: Option<nat>,
    favouriteArticles: bool,
    myArticles: bool,
    userId: Option<Id>)

  /** One page of a listing and the number of all matches. */
  datatype ArticleData = ArticleData(total: nat, result: seq<Id>)

  /** `params.x ? +params.x : 0`; a limit of 0 means no limit. */
  function OrZero(n: Option<nat>): nat {
    if n.Some? then n.value else 0
  }

  // ---------------------------------------------------------------------------
  // GetAllArticles
  // ---------------------------------------------------------------------------

  /** The query built from the parameters: an exact category, and a
      case-insensitive search of `text` inside the title when text is given. */
  predicate ListFilter(a: Article, q: ListQuery) {
    && (q.category.Some? ==> a.category == q.category.value)
    && (q.text != "" ==> IsInfix(ToLower(q.text), ToLower(a.title)))
  }

  function ListMatches(s: DbState, q: ListQuery): set<Id> {
    set a | a in s.articles && ListFilter(s.articles[a], q)
  }

  /** The sort key: creation time, negated when newest come first. */
  function CreatedKey(s: DbState, newestFirst: bool): Id -> int {
    a => if a in s.articles then (if newestFirst then -s.articles[a].createdAt else s.articles[a].createdAt) else 0
  }

  /** The matching articles in listing order: a sort on creation time (newest
      first exactly when `sort` is 1), ties in natural order. */
  function Listing(s: DbState, q: ListQuery): (t: seq<Id>)
    ensures |t| == |ListMatches(s, q)|
  {
    SortBy(ListMatches(s, q), CreatedKey(s, q.sort == Some(1)))
  }

  /** The listing holds exactly the matches, in creation order. */
  lemma {:induction false} ListingSorted(s: DbState, q: ListQuery)
    ensures forall a :: a in Listing(s, q) <==> a in ListMatches(s, q)
    ensures SortedBy(CreatedKey(s, q.sort == Some(1)), Listing(s, q))
  {
    var t := SortBy(ListMatches(s, q), CreatedKey(s, q.sort == Some(1)));
    assert Listing(s, q) == t;
  }

  /** Two articles in `CreatedKey` order are in creation order, reversed when newest come first. */
  lemma {:induction false} CreatedOrder(s: DbState, newestFirst: bool, a: Id, b: Id)
    requires Precedes(CreatedKey(s, newestFirst), a, b) && a in s.articles && b in s.articles
    ensures newestFirst ==> s.articles[a].createdAt >= s.articles[b].createdAt
    ensures !newestFirst ==> s.articles[a].createdAt <= s.articles[b].createdAt
  {
  }

  /** `GetAllArticles`: the listing skipped by `offset` and cut by `limit`
      (0 meaning none); `total` counts every match. */
  function GetAllArticles(s: DbState, p: ListParams): (r: ArticleData)
    ensures r.total == |ListMatches(s, p.query)|
    ensures |r.result| <= r.total
    ensures OrZero(p.limit) > 0 ==> |r.result| <= OrZero(p.limit)
    ensures OrZero(p.offset) == 0 && OrZero(p.limit) == 0 ==> |r.result| == r.total
    ensures |r.result| > 0 ==> OrZero(p.offset) + |r.result| <= r.total
  {
    ArticleData(|ListMatches(s, p.query)|, Page(Listing(s, p.query), OrZero(p.offset), OrZero(p.limit)))
  }

  /** Every listed article exists and matches the filters. */
  lemma {:induction false} ListedArticlesMatch(s: DbState, p: ListParams, i: int)
    requires 0 <= i < |GetAllArticles(s, p).result|
    ensures GetAllArticles(s, p).result[i] in ListMatches(s, p.query)
  {
    var t := Listing(s, p.query);
    var o := OrZero(p.offset);
    assert GetAllArticles(s, p).result == Page(t, o, OrZero(p.limit));
    assert t[o + i] in t;
    ListingSorted(s, p.query);
  }

  /** A page is in creation order: newest first exactly when `sort` is 1. */
  lemma {:induction false} ListedInOrder(s: DbState, p: ListParams, i: int, j: int)
    requires 0 <= i < j < |GetAllArticles(s, p).result|
    ensures var r := GetAllArticles(s, p).result;
            && r[i] in s.articles && r[j] in s.articles
            && (p.query.sort == Some(1) ==> s.articles[r[i]].createdAt >= s.articles[r[j]].createdAt)
            && (p.query.sort != Some(1) ==> s.articles[r[i]].createdAt <= s.articles[r[j]].createdAt)
  {
    var key := CreatedKey(s, p.query.sort == Some(1));
    assert GetAllArticles(s, p).result == Page(Listing(s, p.query), OrZero(p.offset), OrZero(p.limit));
    ListingSorted(s, p.query);
    PageKeepsOrder(key, Listing(s, p.query), OrZero(p.offset), OrZero(p.limit), i, j);
    ListedArticlesMatch(s, p, i);
    ListedArticlesMatch(s, p, j);
    CreatedOrder(s, p.query.sort == Some(1), GetAllArticles(s, p).result[i], GetAllArticles(s, p).result[j]);
  }

  /** Three results on the same query adjoin when they are the page of length
      `limit` at `offset`, everything after it, and everything from `offset`. */
  lemma {:induction false} ResultsAdjoin(s: DbState, first: ListParams, rest: ListParams, whole: ListParams, offset: nat, limit: nat)
    requires limit > 0 && rest.query == first.query && whole.query == first.query
    requires OrZero(first.offset) == offset && OrZero(first.limit) == limit
    requires OrZero(rest.offset) == offset + limit && OrZero(rest.limit) == 0
    requires OrZero(whole.offset) == offset && OrZero(whole.limit) == 0
    ensures GetAllArticles(s, first).result + GetAllArticles(s, rest).result == GetAllArticles(s, whole).result
  {
    PagesAdjoin(Listing(s, first.query), offset, limit);
  }

  /** Paging never loses or repeats an article: a page followed by everything
      after it is everything from the page's start. */
  lemma {:induction false} ListPagesAdjoin(s: DbState, p: ListParams, limit: nat)
    requires limit > 0
    ensures GetAllArticles(s, p.(limit := Some(limit))).result
            + GetAllArticles(s, p.(limit := None, offset := Some(OrZero(p.offset) + limit))).result
         == GetAllArticles(s, p.(limit := None)).result
  {
    ResultsAdjoin(s, p.(limit := Some(limit)), p.(limit := None, offset := Some(OrZero(p.offset) + limit)),
                  p.(limit := None), OrZero(p.offset), limit);
  }

  /** The order is fully determined: any listing of exactly the matches in the
      required order is the one returned, paged. */
  lemma {:induction false} ListOrderIsCanonical(s: DbState, p: ListParams, t: seq<Id>)
    requires forall a :: a in t <==> a in ListMatches(s, p.query)
    requires SortedBy(CreatedKey(s, p.query.sort == Some(1)), t)
    ensures GetAllArticles(s, p).result == Page(t, OrZero(p.offset), OrZero(p.limit))
  {
    SortByUnique(ListMatches(s, p.query), CreatedKey(s, p.query.sort == Some(1)), t);
    assert Listing(s, p.query) == SortBy(ListMatches(s, p.query), CreatedKey(s, p.query.sort == Some(1)));
  }

  // ---------------------------------------------------------------------------
  // GetUserArticles
  // ---------------------------------------------------------------------------

  /** The author the query filters on: `user_id` when given, overwriting the
      caller set by `myArticles`. */
  function AuthorFilter(p: UserListParams, caller: Id): (r: Option<Id>)
    ensures p.userId.Some? ==> r == p.userId
    ensures p.userId.None? ==> (r.Some? <==> p.myArticles) && (r.Some? ==> r.value == caller)
  {
    if p.userId.Some? then p.userId
    else if p.myArticles then Some(caller)
    else None
  }

  /** The query: the caller's favourites (when asked for) and the author filter, together. */
  predicate UserFilter(s: DbState, id: Id, p: UserListParams, caller: Id)
    requires id in s.articles && caller in s.users
  {
    && (p.favouriteArticles ==> id in s.users[caller].favouriteArticles)
    && (AuthorFilter(p, caller).Some? ==> s.articles[id].author == AuthorFilter(p, caller).value)
  }

  function UserMatches(s: DbState, p: UserListParams, caller: Id): set<Id>
    requires caller in s.users
  {
    set a | a in s.articles && UserFilter(s, a, p, caller)
  }

  /** The matching articles in natural order. */
  function UserListing(s: DbState, p: UserListParams, caller: Id): (t: seq<Id>)
    requires caller in s.users
    ensures |t| == |UserMatches(s, p, caller)|
  {
    SortBy(UserMatches(s, p, caller), NaturalKey())
  }

  /** `GetUserArticles`: the matching articles in natural order, skipped and
      limited; `total` counts every match. */
  function GetUserArticles(s: DbState, p: UserListParams, caller: Id): (r: ArticleData)
    requires caller in s.users
    ensures r.total == |UserMatches(s, p, caller)|
    ensures |r.result| <= r.total
    ensures OrZero(p.limit) > 0 ==> |r.result| <= OrZero(p.limit)
    ensures OrZero(p.offset) == 0 && OrZero(p.limit) == 0 ==> |r.result| == r.total
    ensures |r.result| > 0 ==> OrZero(p.offset) + |r.result| <= r.total
  {
    ArticleData(|UserMatches(s, p, caller)|, Page(UserListing(s, p, caller), OrZero(p.offset), OrZero(p.limit)))
  }

  /** The user listing holds exactly the matches, in natural order. */
  lemma {:induction false} UserListingSorted(s: DbState, p: UserListParams, caller: Id)
    requires caller in s.users
    ensures forall a :: a in UserListing(s, p, caller) <==> a in UserMatches(s, p, caller)
    ensures SortedBy(NaturalKey(), UserListing(s, p, caller))
  {
    var t := SortBy(UserMatches(s, p, caller), NaturalKey());
    assert UserListing(s, p, caller) == t;
  }

  /** Every listed article exists and passes both filters: the caller's
      favourites when asked for, and the author named by `user_id`, or else the
      caller when `myArticles` is set. */
  lemma {:induction false} UserListedArticlesMatch(s: DbState, p: UserListParams, caller: Id, i: int)
    requires caller in s.users && 0 <= i < |GetUserArticles(s, p, caller).result|
    ensures var a := GetUserArticles(s, p, caller).result[i];
            && a in s.articles
            && (p.favouriteArticles ==> a in s.users[caller].favouriteArticles)
            && (p.userId.Some? ==> s.articles[a].author == p.userId.value)
            && (p.userId.None? && p.myArticles ==> s.articles[a].author == caller)
  {
    var t := UserListing(s, p, caller);
    var o := OrZero(p.offset);
    assert GetUserArticles(s, p, caller).result == Page(t, o, OrZero(p.limit));
    assert t[o + i] in t;
    UserListingSorted(s, p, caller);
  }

  /** The listing is in natural order: ascending ids. */
  lemma {:induction false} UserListedInIdOrder(s: DbState, p: UserListParams, caller: Id, i: int, j: int)
    requires caller in s.users && 0 <= i < j < |GetUserArticles(s, p, caller).result|
    ensures GetUserArticles(s, p, caller).result[i] < GetUserArticles(s, p, caller).result[j]
  {
    assert GetUserArticles(s, p, caller).result == Page(UserListing(s, p, caller), OrZero(p.offset), OrZero(p.limit));
    UserListingSorted(s, p, caller);
    PageKeepsOrder(NaturalKey(), UserListing(s, p, caller), OrZero(p.offset), OrZero(p.limit), i, j);
  }

  /** The page is fully determined: any listing of exactly the matches in
      ascending id order gives the same result, so every match the offset and
      limit select is on the page. */
  lemma {:induction false} UserListOrderIsCanonical(s: DbState, p: UserListParams, caller: Id, t: seq<Id>)
    requires caller in s.users
    requires forall a :: a in t <==> a in UserMatches(s, p, caller)
    requires SortedBy(NaturalKey(), t)
    ensures GetUserArticles(s, p, caller).result == Page(t, OrZero(p.offset), OrZero(p.limit))
  {
    SortByUnique(UserMatches(s, p, caller), NaturalKey(), t);
    assert UserListing(s, p, caller) == SortBy(UserMatches(s, p, caller), NaturalKey());
  }

  /** `user_id` wins: with it present, asking for the caller's own articles changes nothing. */
  lemma {:induction false} UserIdOverridesMyArticles(s: DbState, p: UserListParams, caller: Id)
    requires caller in s.users && p.userId.Some?
    ensures GetUserArticles(s, p.(myArticles := true), caller) == GetUserArticles(s, p.(myArticles := false), caller)
  {
    assert UserMatches(s, p.(myArticles := true), caller) == UserMatches(s, p.(myArticles := false), caller);
  }

  // ---------------------------------------------------------------------------
  // GetTheMostPopularArticle
  // ---------------------------------------------------------------------------

  /** A day in milliseconds. */
  const Day: int := 86400000

  /** The articles created in the last 30 days. */
  function RecentArticles(s: DbState, now: int): set<Id> {
    set a | a in s.articles && s.articles[a].createdAt >= now - 30 * Day
  }

  /** The sort key: more likes first; equal counts keep natural order. */
  function LikesKey(s: DbState): Id -> int {
    a => if a in s.articles then -|s.articles[a].likes| else 0
  }

  /** `GetTheMostPopularArticle`: the recent articles sorted by like count,
      most first, and the first of them; none when there is no recent article.
      The winner has the most likes among recent articles and is the earliest
      of those with as many. */
  function GetTheMostPopularArticle(s: DbState, now: int): (r: Option<Id>)
    ensures r.None? <==> RecentArticles(s, now) == {}
    ensures r.Some? ==> r.value in s.articles && s.articles[r.value].createdAt >= now - 30 * Day
    ensures r.Some? ==> forall a :: a in RecentArticles(s, now) ==>
              |s.articles[a].likes| <= |s.articles[r.value].likes|
    ensures r.Some? ==> forall a :: a in RecentArticles(s, now) && |s.articles[a].likes| == |s.articles[r.value].likes| ==>
              r.value <= a
  {
    var sorted := SortBy(RecentArticles(s, now), LikesKey(s));
    if |sorted| == 0 then None
    else
      assert sorted[0] in RecentArticles(s, now);
      assert forall a :: a in RecentArticles(s, now) && a != sorted[0] ==> Precedes(LikesKey(s), sorted[0], a) by {
        forall a | a in RecentArticles(s, now) && a != sorted[0]
          ensures Precedes(LikesKey(s), sorted[0], a)
        {
          var k :| 0 <= k < |sorted| && sorted[k] == a;
          assert k > 0;
        }
      }
      Some(sorted[0])
  }

  /** The winner does not depend on articles outside the window: adding an
      older article changes nothing. */
  lemma {:induction false} OldArticlesIgnored(s: DbState, now: int, id: Id, a: Article)
    requires id !in s.articles && a.createdAt < now - 30 * Day
    ensures GetTheMostPopularArticle(s.(articles := s.articles[id := a]), now) == GetTheMostPopularArticle(s, now)
  {
    var t := s.(articles := s.articles[id := a]);
    assert RecentArticles(t, now) == RecentArticles(s, now);
    var S := RecentArticles(s, now);
    var sorted := SortBy(S, LikesKey(s));
    assert SortedBy(LikesKey(t), sorted) by {
      forall i, j | 0 <= i < j < |sorted|
        ensures Precedes(LikesKey(t), sorted[i], sorted[j])
      {
        assert Precedes(LikesKey(s), sorted[i], sorted[j]);
        assert sorted[i] in S && sorted[j] in S;
      }
    }
    SortByUnique(S, LikesKey(t), sorted);
  }
}
