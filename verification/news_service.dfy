/**
 * The news service: paged news lists sorted by recency or popularity, a feed built from
 * the categories a user follows, the detail view that counts a view, and the
 * replace-all update of a user's follows.
 */
module NewsFeed {
  import opened Wrappers
  import opened Seqs
  import opened Sorting

  /** The news columns the service reads or writes. */
  datatype NewsItem = NewsItem(id: int, title: string, category: Option<string>, viewCount: int, createdAt: Timestamp)

  /** A row of user_follows; (followerId, category) is unique. */
  datatype Follow = Follow(followerId: int, category: string)

  datatype NewsError =
    | NewsNotFound(id: int)
    /** PageRequest.of refuses a negative page or a size below one. */
    | InvalidPageRequest
    /** The (followerId, category) unique constraint. */
    | DuplicateFollow(category: string)

  datatype SortOrder = ByViewCountDesc | ByCreatedAtDesc
  datatype PageRequest = PageRequest(page: nat, size: nat, order: SortOrder)

  /** The order a sort parameter asks for. */
  function SortOf(sort: string): SortOrder
  {
    if sort == "popular" then ByViewCountDesc else ByCreatedAtDesc
  }

  /** createPageable: "popular" sorts by view count, anything else by creation time, both
      descending; the page request itself is refused for a negative page or a size below
      one. */
  function CreatePageable(page: int, size: int, sort: string): (r: Result<PageRequest, NewsError>)
    ensures r.Err? <==> page < 0 || size < 1
    ensures r.Ok? ==> r.value.page == page && r.value.size == size
    ensures r.Ok? ==> (r.value.order == ByViewCountDesc <==> sort == "popular")
  {
    if page < 0 || size < 1 then Err(InvalidPageRequest) else Ok(PageRequest(page, size, SortOf(sort)))
  }

  /** The ORDER BY a page request adds to a derived query. */
  function OrderKey(order: SortOrder): NewsItem -> Key
  {
    match order
    case ByViewCountDesc => (n: NewsItem) => Key(n.viewCount, 0)
    case ByCreatedAtDesc => (n: NewsItem) => Key(n.createdAt, 0)
  }

  /** findLatestNews already orders by creation time; the page request's order is
      appended after it and only breaks ties. */
  function LatestKey(order: SortOrder): NewsItem -> Key
  {
    match order
    case ByViewCountDesc => (n: NewsItem) => Key(n.createdAt, n.viewCount)
    case ByCreatedAtDesc => (n: NewsItem) => Key(n.createdAt, 0)
  }

  function InCategory(c: string): NewsItem -> bool
  {
    (n: NewsItem) => n.category == Some(c)
  }

  function InCategories(cs: seq<string>): NewsItem -> bool
  {
    (n: NewsItem) => n.category.Some? && n.category.value in cs
  }

  /** One page of the rows passing the WHERE clause, in the given order. */
  function Page(items: seq<NewsItem>, where: NewsItem -> bool, key: NewsItem -> Key, start: nat, size: nat): (r: seq<NewsItem>)
    ensures |r| <= size
    ensures forall x :: x in r ==> x in items && where(x)
    ensures SortedDesc(r, key)
    ensures IsSortedPage(r, Filter(items, where), key, start, size)
  {
    SortedWindow(Filter(items, where), key, start, size);
    Window(SortDesc(Filter(items, where), key), start, size)
  }

  function Everything(): NewsItem -> bool
  {
    (n: NewsItem) => true
  }

  /** SELECT DISTINCT category FROM user_follows WHERE followerId = :userId. */
  function FollowedCategories(follows: seq<Follow>, userId: int): (r: seq<string>)
    ensures NoDuplicates(r)
    ensures forall c :: c in r <==> Follow(userId, c) in follows
  {
    if follows == [] then []
    else
      var rest := FollowedCategories(follows[1..], userId);
      assert forall f :: f in follows <==> f == follows[0] || f in follows[1..];
      if follows[0].followerId == userId && follows[0].category !in rest then [follows[0].category] + rest
      else rest
  }

  function OfUser(userId: int): Follow -> bool
  {
    (f: Follow) => f.followerId == userId
  }

  function NotOfUser(userId: int): Follow -> bool
  {
    (f: Follow) => f.followerId != userId
  }

  function FollowsOf(userId: int, categories: seq<string>): (r: seq<Follow>)
    ensures |r| == |categories|
    ensures forall i :: 0 <= i < |r| ==> r[i] == Follow(userId, categories[i])
  {
    seq(|categories|, i requires 0 <= i < |categories| => Follow(userId, categories[i]))
  }

  /** The table's constraint: no (followerId, category) pair twice. */
  predicate FollowsUnique(follows: seq<Follow>)
  {
    NoDuplicates(follows)
  }

  predicate IdsUnique(news: seq<NewsItem>)
  {
    forall i, j :: 0 <= i < j < |news| ==> news[i].id != news[j].id
  }

  function IndexOfNews(news: seq<NewsItem>, id: int): (r: Option<nat>)
    ensures r.Some? ==> r.value < |news| && news[r.value].id == id
    ensures r.None? ==> forall i :: 0 <= i < |news| ==> news[i].id != id
  {
    if news == [] then None
    else if news[0].id == id then Some(0)
    else match IndexOfNews(news[1..], id)
      case None => None
      case Some(k) => Some(k + 1)
  }

  class NewsService {
    var news: seq<NewsItem>
    var follows: seq<Follow>

    predicate Valid()
      reads this
    {
      IdsUnique(news) && FollowsUnique(follows)
    }

    constructor (news: seq<NewsItem>, follows: seq<Follow>)
      requires IdsUnique(news) && FollowsUnique(follows)
      ensures Valid() && this.news == news && this.follows == follows
    {
      this.news := news;
      this.follows := follows;
    }

    /** getNews: a non-empty category selects that category in the page request's order;
        otherwise every item, newest first, the request's order only breaking ties. Either
        way the result is page number page of size rows of that ordering. */
    function GetNews(page: int, size: int, category: Option<string>, sort: string): (r: Result<seq<NewsItem>, NewsError>)
      reads this
      ensures r.Err? <==> page < 0 || size < 1
      ensures r.Ok? ==> |r.value| <= size && forall x :: x in r.value ==> x in news
      ensures r.Ok? && category.Some? && category.value != [] ==>
        (forall x :: x in r.value ==> x.category == category) &&
        SortedDesc(r.value, OrderKey(SortOf(sort))) &&
        IsSortedPage(r.value, Filter(news, InCategory(category.value)), OrderKey(SortOf(sort)), page * size, size)
      ensures r.Ok? && (category.None? || category.value == []) ==>
        (forall i, j :: 0 <= i < j < |r.value| ==> r.value[i].createdAt >= r.value[j].createdAt) &&
        IsSortedPage(r.value, news, LatestKey(SortOf(sort)), page * size, size)
    {
      match CreatePageable(page, size, sort)
      case Err(e) => Err(e)
      case Ok(p) =>
        var start := p.page * p.size;
        if category.Some? && category.value != [] then
          Ok(Page(news, InCategory(category.value), OrderKey(p.order), start, p.size))
        else
          var r := Page(news, Everything(), LatestKey(p.order), start, p.size);
          assert forall i, j :: 0 <= i < j < |r| ==> !KeyLess(LatestKey(p.order)(r[i]), LatestKey(p.order)(r[j]));
          FilterAll(news, Everything());
          Ok(r)
    }

    /** getUserFollows. */
    function GetUserFollows(userId: int): (r: seq<string>)
      reads this
      ensures NoDuplicates(r)
      ensures forall c :: c in r <==> Follow(userId, c) in follows
    {
      FollowedCategories(follows, userId)
    }

    /** getUserFeed: without follows, the latest news of every category; with follows,
        only items of a followed category, newest first. */
    function GetUserFeed(userId: int, page: int, size: int): (r: Result<seq<NewsItem>, NewsError>)
      reads this
      ensures GetUserFollows(userId) == [] ==> r == GetNews(page, size, None, "latest")
      ensures r.Err? <==> page < 0 || size < 1
      ensures r.Ok? ==> |r.value| <= size
      ensures r.Ok? && GetUserFollows(userId) != [] ==>
        (forall x :: x in r.value ==> x in news && x.category.Some? && Follow(userId, x.category.value) in follows) &&
        (forall i, j :: 0 <= i < j < |r.value| ==> r.value[i].createdAt >= r.value[j].createdAt) &&
        IsSortedPage(r.value, Filter(news, InCategories(GetUserFollows(userId))), LatestKey(ByCreatedAtDesc), page * size, size)
    {
      var categories := GetUserFollows(userId);
      if categories == [] then GetNews(page, size, None, "latest")
      else if page < 0 || size < 1 then Err(InvalidPageRequest)
      else
        var r := Page(news, InCategories(categories), LatestKey(ByCreatedAtDesc), page * size, size);
        assert forall i, j :: 0 <= i < j < |r| ==> !KeyLess(LatestKey(ByCreatedAtDesc)(r[i]), LatestKey(ByCreatedAtDesc)(r[j]));
        Ok(r)
    }

    /** getNewsById: an unknown id fails and changes nothing; otherwise the item's view
        count goes up by exactly one and the updated item is returned. */
    method GetNewsById(id: int) returns (r: Result<NewsItem, NewsError>)
      requires Valid()
      modifies this`news
      ensures Valid()
      ensures |news| == |old(news)|
      ensures r.Err? <==> forall i :: 0 <= i < |news| ==> old(news)[i].id != id
      ensures r.Err? ==> r == Err(NewsNotFound(id)) && news == old(news)
      ensures r.Ok? ==> r.value.id == id && exists i :: OnlyViewed(old(news), news, i) && news[i] == r.value
    {
      match IndexOfNews(news, id) {
        case None =>
          return Err(NewsNotFound(id));
        case Some(i) =>
          var item := news[i].(viewCount := news[i].viewCount + 1);
          news := news[i := item];
          assert OnlyViewed(old(news), news, i);
          return Ok(item);
      }
    }

    /** saveUserFollows, in one transaction. The derived deleteByFollowerId only marks the
        user's rows for removal, which reaches the table at the flush; each new row, with
        its IDENTITY key, is inserted at once. A category repeated in the list, or one the
        user already follows, therefore breaks the (followerId, category) unique constraint
        and the whole transaction is rolled back. */
    method SaveUserFollows(userId: int, categories: seq<string>) returns (r: Result<(), NewsError>)
      requires Valid()
      modifies this`follows
      ensures Valid()
      ensures r.Ok? <==> NoDuplicates(categories) && NoneFollowed(old(follows), userId, categories)
      ensures r.Ok? ==> follows == ReplaceFollows(old(follows), userId, categories)
      ensures r.Err? ==> follows == old(follows) && r.error.DuplicateFollow? && r.error.category in categories
    {
      var saved := follows;
      var k := 0;
      while k < |categories|
        invariant 0 <= k <= |categories|
        invariant follows == saved + FollowsOf(userId, categories[..k])
        invariant NoDuplicates(categories[..k]) && NoneFollowed(saved, userId, categories[..k])
        invariant FollowsUnique(follows)
      {
        var row := Follow(userId, categories[k]);
        if row in follows {
          assert !(NoDuplicates(categories) && NoneFollowed(saved, userId, categories)) by {
            Collision(saved, userId, categories, k);
          }
          follows := saved;
          return Err(DuplicateFollow(categories[k]));
        }
        AppendUnique(follows, row);
        follows := follows + [row];
        assert categories[..k + 1] == categories[..k] + [categories[k]];
        assert FollowsOf(userId, categories[..k + 1]) == FollowsOf(userId, categories[..k]) + [row];
        assert NoDuplicates(categories[..k + 1]) by {
          forall j | 0 <= j < k ensures categories[j] != categories[k] {
            assert FollowsOf(userId, categories[..k])[j] in follows;
          }
        }
        k := k + 1;
      }
      assert categories[..k] == categories;
      // The flush removes the rows the delete had loaded: the user's rows from before.
      ReplacedUnique(saved, userId, categories);
      follows := ReplaceFollows(saved, userId, categories);
      return Ok(());
    }

    /** saveUserFollows as evidently intended: the user's rows leave the table before the
        new ones go in (a flushed bulk delete), so only a category repeated within the list
        can break the unique constraint. */
    method SaveUserFollowsFlushed(userId: int, categories: seq<string>) returns (r: Result<(), NewsError>)
      requires Valid()
      modifies this`follows
      ensures Valid()
      ensures r.Ok? <==> NoDuplicates(categories)
      ensures r.Ok? ==> follows == ReplaceFollows(old(follows), userId, categories)
      ensures r.Err? ==> follows == old(follows) && r.error.DuplicateFollow? && r.error.category in categories
    {
      var saved := follows;
      var kept := Filter(follows, NotOfUser(userId));
      FilterKeepsUnique(follows, NotOfUser(userId));
      follows := kept;
      var k := 0;
      while k < |categories|
        invariant 0 <= k <= |categories|
        invariant follows == kept + FollowsOf(userId, categories[..k])
        invariant NoDuplicates(categories[..k])
        invariant FollowsUnique(follows)
      {
        var row := Follow(userId, categories[k]);
        if row in follows {
          assert row in FollowsOf(userId, categories[..k]) by {
            assert row !in kept;
          }
          assert !NoDuplicates(categories) by {
            var j :| 0 <= j < k && FollowsOf(userId, categories[..k])[j] == row;
            assert categories[j] == categories[k];
          }
          follows := saved;
          return Err(DuplicateFollow(categories[k]));
        }
        AppendUnique(follows, row);
        follows := follows + [row];
        assert categories[..k + 1] == categories[..k] + [categories[k]];
        assert FollowsOf(userId, categories[..k + 1]) == FollowsOf(userId, categories[..k]) + [row];
        assert NoDuplicates(categories[..k + 1]) by {
          forall j | 0 <= j < k ensures categories[j] != categories[k] {
            assert FollowsOf(userId, categories[..k])[j] in follows;
          }
        }
        k := k + 1;
      }
      assert categories[..k] == categories;
      return Ok(());
    }
  }

  /** The table after replacing the user's follows: every other user's rows as they were,
      then one row per given category. */
  function ReplaceFollows(before: seq<Follow>, userId: int, categories: seq<string>): seq<Follow>
  {
    Filter(before, NotOfUser(userId)) + FollowsOf(userId, categories)
  }

  /** The settings dialog ticks the categories the user follows and sends back every ticked
      box: saving a selection that keeps one of them fails as written, while replacing
      would have left the table as it was. */
  lemma ResaveFails()
    ensures var before := [Follow(1, "IT")];
      && NoDuplicates(["IT"])
      && !NoneFollowed(before, 1, ["IT"])
      && ReplaceFollows(before, 1, ["IT"]) == before
  {
    var before := [Follow(1, "IT")];
    assert Filter(before, NotOfUser(1)) == [];
    assert FollowsOf(1, ["IT"]) == before;
  }

  /** None of the categories is one the user already follows. */
  predicate NoneFollowed(follows: seq<Follow>, userId: int, categories: seq<string>)
  {
    forall i :: 0 <= i < |categories| ==> Follow(userId, categories[i]) !in follows
  }

  /** The row for category k is already in the table after the first k inserts: the list
      repeats a category, or the user followed it before. */
  lemma Collision(saved: seq<Follow>, userId: int, categories: seq<string>, k: nat)
    requires k < |categories|
    requires Follow(userId, categories[k]) in saved + FollowsOf(userId, categories[..k])
    ensures !(NoDuplicates(categories) && NoneFollowed(saved, userId, categories))
  {
    var row := Follow(userId, categories[k]);
    if row !in saved {
      var j :| 0 <= j < k && FollowsOf(userId, categories[..k])[j] == row;
      assert categories[j] == categories[k];
    }
  }

  /** The kept rows of other users and the user's new rows form a table without repeats. */
  lemma ReplacedUnique(saved: seq<Follow>, userId: int, categories: seq<string>)
    requires NoDuplicates(saved) && NoDuplicates(categories)
    ensures NoDuplicates(Filter(saved, NotOfUser(userId)) + FollowsOf(userId, categories))
  {
    var kept := Filter(saved, NotOfUser(userId));
    var added := FollowsOf(userId, categories);
    FilterKeepsUnique(saved, NotOfUser(userId));
    forall i, j | 0 <= i < j < |kept + added|
      ensures (kept + added)[i] != (kept + added)[j]
    {
      if j >= |kept| {
        assert (kept + added)[j] == added[j - |kept|];
        if i < |kept| {
          assert kept[i] in kept;
        }
      }
    }
  }

  /** items and after differ only in the view count of item i, which went up by one. */
  predicate OnlyViewed(before: seq<NewsItem>, after: seq<NewsItem>, i: int)
  {
    0 <= i < |before| && |after| == |before| &&
    after[i] == before[i].(viewCount := before[i].viewCount + 1) &&
    forall j :: 0 <= j < |before| && j != i ==> after[j] == before[j]
  }

  lemma {:induction false} FilterKeepsUnique(follows: seq<Follow>, p: Follow -> bool)
    requires NoDuplicates(follows)
    ensures NoDuplicates(Filter(follows, p))
  {
    if follows != [] {
      FilterKeepsUnique(follows[1..], p);
      assert follows[0] !in follows[1..];
    }
  }

  lemma AppendUnique(s: seq<Follow>, x: Follow)
    requires NoDuplicates(s) && x !in s
    ensures NoDuplicates(s + [x])
  {
  }

  /** After a successful save the user follows exactly the given categories, and every
      other user's follows are as before. */
  lemma SavedFollows(before: seq<Follow>, userId: int, categories: seq<string>, other: int)
    requires other != userId
    ensures var after := ReplaceFollows(before, userId, categories);
      && (forall c :: c in FollowedCategories(after, userId) <==> c in categories)
      && (forall c :: c in FollowedCategories(after, other) <==> c in FollowedCategories(before, other))
  {
    var kept := Filter(before, NotOfUser(userId));
    var after := kept + FollowsOf(userId, categories);
    forall c
      ensures Follow(userId, c) in after <==> c in categories
    {
      assert Follow(userId, c) !in kept;
      if c in categories {
        var i :| 0 <= i < |categories| && categories[i] == c;
        assert FollowsOf(userId, categories)[i] == Follow(userId, c);
      }
    }
    forall c
      ensures Follow(other, c) in after <==> Follow(other, c) in before
    {
      assert Follow(other, c) !in FollowsOf(userId, categories);
    }
  }
}
