/**
 * The board list page: the loaded posts, the filtered and sorted view of them, and
 * the current page of that view with its window of page buttons.
 */
module BoardList {
  import opened Wrappers
  import opened Text
  import opened Seqs
  import opened Sorting

  /** A post as the page keeps it once loaded. */
  datatype Post = Post(boardNo: int, title: string, excerpt: string, category: string, author: string,
                       createdAt: Timestamp, views: nat, likes: nat, comments: nat)

  const PostsPerPage := 10
  /** How many page numbers are shown on either side of the current page. */
  const ButtonSpread := 2

  /** The search rule: the lower-cased title, excerpt or author contains the term. */
  predicate Matches(post: Post, term: string)
  {
    Contains(ToLower(post.title), term) || Contains(ToLower(post.excerpt), term) || Contains(ToLower(post.author), term)
  }

  /** filterPosts' category rule. */
  predicate InCategory(post: Post, category: string)
  {
    post.category == category
  }

  /** filterPosts' combined rule: the selected category, if any, and the search term. */
  predicate Selected(post: Post, category: string, term: string)
  {
    (category == [] || InCategory(post, category)) && Matches(post, term)
  }

  /** The search box value as the page uses it: trimmed and lower-cased. */
  function SearchTerm(input: string): string
  {
    ToLower(Trim(input))
  }

  function ByCreatedAt(p: Post): Key { Key(p.createdAt, 0) }
  function ByLikes(p: Post): Key { Key(p.likes, 0) }
  function ByViews(p: Post): Key { Key(p.views, 0) }

  /** Math.ceil(count / perPage). */
  function PageCount(count: nat, perPage: nat): nat
    requires perPage > 0
  {
    (count + perPage - 1) / perPage
  }

  /** PageCount is the ceiling: the fewest pages of perPage that hold count items. */
  lemma PageCountIsCeiling(count: nat, perPage: nat)
    requires perPage > 0
    ensures PageCount(count, perPage) * perPage >= count
    ensures PageCount(count, perPage) > 0 ==> (PageCount(count, perPage) - 1) * perPage < count
    ensures PageCount(count, perPage) == 0 <==> count == 0
  {
  }

  /** The page numbers lo to hi, one button each, collected in order. */
  method PageNumbers(lo: int, hi: int) returns (pages: seq<int>)
    ensures pages == Range(lo, hi)
  {
    pages := [];
    var i := lo;
    while i <= hi
      invariant lo <= i <= Max(lo, hi + 1)
      invariant pages == Range(lo, i - 1)
    {
      pages := pages + [i];
      i := i + 1;
    }
  }

  /** The integers lo, lo + 1, ..., hi. */
  function Range(lo: int, hi: int): (r: seq<int>)
    ensures |r| == if lo <= hi then hi - lo + 1 else 0
    ensures forall i :: 0 <= i < |r| ==> r[i] == lo + i
    decreases hi - lo
  {
    if lo > hi then [] else [lo] + Range(lo + 1, hi)
  }

  function Max(a: int, b: int): int { if a >= b then a else b }
  function Min(a: int, b: int): int { if a <= b then a else b }

  /** The buttons around page p of total pages: at most 2 * ButtonSpread + 1 of them, each
      a real page, and p among them when it is one. */
  lemma ButtonWindow(p: int, total: int)
    requires p >= 1 && total > 1
    ensures var r := Range(Max(1, p - ButtonSpread), Min(total, p + ButtonSpread));
      && |r| <= 2 * ButtonSpread + 1
      && (forall i :: 0 <= i < |r| ==> 1 <= r[i] <= total)
      && (p <= total ==> p in r)
  {
    var lo := Max(1, p - ButtonSpread);
    var r := Range(lo, Min(total, p + ButtonSpread));
    if p <= total {
      assert r[p - lo] == p;
    }
  }

  /** The empty search term matches every post, so the special case for it agrees with
      filtering. */
  lemma EmptyTermMatchesAll(posts: seq<Post>)
    ensures Filter(posts, p => Matches(p, [])) == posts
  {
    FilterAll(posts, p => Matches(p, []));
  }

  class BoardPage {
    var currentPage: int
    var allPosts: seq<Post>
    var filteredPosts: seq<Post>
    /** filteredPosts and allPosts are one and the same array, so sorting the view in
        place reorders the loaded posts too. */
    var shared: bool

    /** Pages count from 1, the view only ever holds loaded posts, and a shared array
        has one content. */
    predicate Valid()
      reads this
    {
      currentPage >= 1 && multiset(filteredPosts) <= multiset(allPosts) &&
      (shared ==> filteredPosts == allPosts)
    }

    constructor ()
      ensures Valid()
      ensures currentPage == 1 && allPosts == [] && filteredPosts == [] && !shared
    {
      currentPage, allPosts, filteredPosts, shared := 1, [], [], false;
    }

    /** Math.ceil(filteredPosts.length / postsPerPage). */
    function TotalPages(): (r: nat)
      reads this
      ensures r == PageCount(|filteredPosts|, PostsPerPage)
    {
      (|filteredPosts| + PostsPerPage - 1) / PostsPerPage
    }

    /** displayPosts' slice: positions (p - 1) * n up to p * n of the view, clipped. */
    function PostsToShow(): (r: seq<Post>)
      requires Valid()
      reads this
      ensures |r| <= PostsPerPage
      ensures forall i :: 0 <= i < |r| ==>
        (currentPage - 1) * PostsPerPage + i < |filteredPosts| && r[i] == filteredPosts[(currentPage - 1) * PostsPerPage + i]
      ensures r == [] <==> currentPage > TotalPages()
    {
      PageCountIsCeiling(|filteredPosts|, PostsPerPage);
      Window(filteredPosts, (currentPage - 1) * PostsPerPage, PostsPerPage)
    }

    /** loadPosts: a successful reply replaces the posts, newest first, and shows a copy
        of them all; a failed one empties both lists. The current page is left as it was. */
    method LoadPosts(reply: Option<seq<Post>>)
      requires Valid()
      modifies this`allPosts, this`filteredPosts, this`shared
      ensures Valid() && !shared
      ensures reply.None? ==> allPosts == [] && filteredPosts == []
      ensures reply.Some? ==> allPosts == SortDesc(reply.value, ByCreatedAt) && filteredPosts == allPosts
    {
      shared := false;
      match reply {
        case None =>
          allPosts := [];
          filteredPosts := [];
        case Some(posts) =>
          allPosts := SortDesc(posts, ByCreatedAt);
          filteredPosts := allPosts;
      }
    }

    /** refreshPosts: back to the first page, then loadPosts. */
    method RefreshPosts(reply: Option<seq<Post>>)
      requires Valid()
      modifies this`currentPage, this`allPosts, this`filteredPosts, this`shared
      ensures Valid() && currentPage == 1 && !shared
      ensures reply.None? ==> allPosts == [] && filteredPosts == []
      ensures reply.Some? ==> allPosts == SortDesc(reply.value, ByCreatedAt) && filteredPosts == allPosts
    {
      currentPage := 1;
      LoadPosts(reply);
    }

    /** displayPagination's window: nothing for a single page, otherwise the pages from
        max(1, p - 2) to min(totalPages, p + 2). */
    method PaginationButtons() returns (pages: seq<int>)
      requires Valid()
      ensures TotalPages() <= 1 ==> pages == []
      ensures TotalPages() > 1 ==>
        pages == Range(Max(1, currentPage - ButtonSpread), Min(TotalPages(), currentPage + ButtonSpread))
      ensures |pages| <= 2 * ButtonSpread + 1
      ensures forall i :: 0 <= i < |pages| ==> 1 <= pages[i] <= TotalPages()
      ensures 1 < TotalPages() && currentPage <= TotalPages() ==> currentPage in pages
    {
      var totalPages := TotalPages();
      pages := [];
      if totalPages <= 1 {
        return;
      }
      var startPage := Max(1, currentPage - ButtonSpread);
      var endPage := Min(totalPages, currentPage + ButtonSpread);
      pages := PageNumbers(startPage, endPage);
      ButtonWindow(currentPage, totalPages);
    }

    /** displayPosts: the current slice, and page buttons only when the slice is not
        empty. */
    method Display() returns (shown: seq<Post>, buttons: seq<int>)
      requires Valid()
      ensures shown == PostsToShow()
      ensures shown == [] ==> buttons == []
      ensures shown != [] ==> buttons == (if TotalPages() <= 1 then []
        else Range(Max(1, currentPage - ButtonSpread), Min(TotalPages(), currentPage + ButtonSpread)))
    {
      var startIndex := (currentPage - 1) * PostsPerPage;
      shown := Window(filteredPosts, startIndex, PostsPerPage);
      if |shown| == 0 {
        buttons := [];
      } else {
        buttons := PaginationButtons();
      }
    }

    /** changePage: a page outside 1..totalPages is ignored. */
    method ChangePage(page: int)
      requires Valid()
      modifies this`currentPage
      ensures Valid()
      ensures (page < 1 || page > TotalPages()) ==> currentPage == old(currentPage)
      ensures 1 <= page <= TotalPages() ==> currentPage == page
    {
      var totalPages := (|filteredPosts| + PostsPerPage - 1) / PostsPerPage;
      if page < 1 || page > totalPages {
        return;
      }
      currentPage := page;
    }

    /** handleSearch: an empty term restores a copy of every post; otherwise the matching
        posts are kept in their loaded order. Back to page 1. */
    method HandleSearch(input: string)
      requires Valid()
      modifies this`filteredPosts, this`currentPage, this`shared
      ensures Valid() && currentPage == 1 && !shared
      ensures filteredPosts == Filter(allPosts, p => Matches(p, SearchTerm(input)))
      ensures SearchTerm(input) == [] ==> filteredPosts == allPosts
    {
      var term := ToLower(Trim(input));
      shared := false;
      if term == [] {
        filteredPosts := allPosts;
        EmptyTermMatchesAll(allPosts);
      } else {
        filteredPosts := Filter(allPosts, p => Matches(p, term));
      }
      FilterMultiset(allPosts, p => Matches(p, term));
      currentPage := 1;
    }

    /** filterPosts: the selected category (when one is selected), then the search term
        (when there is one). With neither, the view becomes the loaded array itself rather
        than a copy. Back to page 1. */
    method FilterPosts(category: string, input: string)
      requires Valid()
      modifies this`filteredPosts, this`currentPage, this`shared
      ensures Valid() && currentPage == 1
      ensures filteredPosts == Filter(allPosts, p => Selected(p, category, SearchTerm(input)))
      ensures shared <==> category == [] && SearchTerm(input) == []
    {
      var posts := allPosts;
      var term := SearchTerm(input);
      var filtered := posts;
      if category != [] {
        filtered := Filter(filtered, p => InCategory(p, category));
      }
      if term != [] {
        filtered := Filter(filtered, p => Matches(p, term));
      }
      assert category == [] && term == [] ==> filtered == posts;
      assert filtered == Filter(posts, p => Selected(p, category, term)) by {
        FilterPostsSpec(posts, category, term);
      }
      assert multiset(filtered) <= multiset(posts) by {
        FilterMultiset(posts, p => Selected(p, category, term));
      }
      filteredPosts, shared, currentPage := filtered, category == [] && term == [], 1;
    }

    /** sortPosts: newest, most liked or most viewed first; any other choice keeps the
        order. The sort is stable and in place, so a view shared with the loaded posts
        reorders them as well. Back to page 1. */
    method SortPosts(sortType: string)
      requires Valid()
      modifies this`filteredPosts, this`allPosts, this`currentPage
      ensures Valid() && currentPage == 1
      ensures allPosts == if shared then filteredPosts else old(allPosts)
      ensures multiset(filteredPosts) == multiset(old(filteredPosts))
      ensures sortType == "latest" ==> filteredPosts == SortDesc(old(filteredPosts), ByCreatedAt)
      ensures sortType == "popular" ==> filteredPosts == SortDesc(old(filteredPosts), ByLikes)
      ensures sortType == "views" ==> filteredPosts == SortDesc(old(filteredPosts), ByViews)
      ensures sortType != "latest" && sortType != "popular" && sortType != "views" ==>
        filteredPosts == old(filteredPosts)
    {
      var view := filteredPosts;
      if sortType == "latest" {
        view := SortDesc(view, ByCreatedAt);
      } else if sortType == "popular" {
        view := SortDesc(view, ByLikes);
      } else if sortType == "views" {
        view := SortDesc(view, ByViews);
      }
      filteredPosts, currentPage := view, 1;
      if shared {
        allPosts := view;
      }
    }
  }

  /** The two optional filter steps together are one filter by the combined rule. */
  lemma FilterPostsSpec(posts: seq<Post>, category: string, term: string)
    ensures var byCategory := if category != [] then Filter(posts, p => InCategory(p, category)) else posts;
      (if term != [] then Filter(byCategory, p => Matches(p, term)) else byCategory)
        == Filter(posts, p => Selected(p, category, term))
  {
    var inCategory: Post -> bool := p => InCategory(p, category);
    var matches: Post -> bool := p => Matches(p, term);
    var selected: Post -> bool := p => Selected(p, category, term);
    if category != [] && term != [] {
      FilterFilter(posts, inCategory, matches, selected);
    } else if category != [] {
      FilterSame(posts, inCategory, selected);
    } else if term != [] {
      FilterSame(posts, matches, selected);
    } else {
      FilterAll(posts, selected);
    }
  }
}
