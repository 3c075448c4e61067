/** The news hook of the old news app (NewsAppOld/src/hooks/useNews.ts):
    the list, the category, the page counter and the loading flags, with the
    load that either starts over at page 1 or appends the next page. */
module OldNewsHook {
  import opened Wrappers
  import opened MockNewsService

  const LoadFailedMessage: string := "Failed to load news"

  /** The hook's state. `articles` is the service's stored fixture. A load
      is split in two: `BeginLoad` is what `loadNews` does before its await
      (it fixes the category and page it asks for) and `CompleteLoad` what
      it does after. */
  class NewsHook {
    const articles: seq<Article>
    var news: seq<Article>
    var category: string
    var loading: bool
    var refreshing: bool
    var error: Option<string>
    var page: int
    var hasMore: bool

    /** The list holds exactly the first `page - 1` pages of `c`. */
    ghost predicate ShowsPages(c: string)
      reads this
    {
      page >= 1 && news == FirstPages(articles, c, page - 1)
    }

    /** The initial state, before the first effect runs. */
    constructor (now: int, initialCategory: string)
      ensures articles == MockArticles(now) && category == initialCategory
      ensures news == [] && page == 1 && hasMore
      ensures !loading && !refreshing && error.None?
      ensures ShowsPages(initialCategory)
    {
      articles := MockArticles(now);
      news := [];
      category := initialCategory;
      loading := false;
      refreshing := false;
      error := None;
      page := 1;
      hasMore := true;
    }

    /** `loadNews(reset)` up to its await: loading, no error, and the request
        for the current category at page 1 (reset) or the current page. */
    method BeginLoad(reset: bool) returns (requestCategory: string, requestPage: int)
      modifies this
      ensures loading && error.None?
      ensures requestCategory == category && requestPage == if reset then 1 else page
      ensures news == old(news) && category == old(category) && page == old(page)
      ensures hasMore == old(hasMore) && refreshing == old(refreshing)
    {
      loading := true;
      error := None;
      requestCategory := category;
      requestPage := if reset then 1 else page;
    }

    /** `loadNews(reset)` after its await. `fails` says the request was
        rejected. On success the page replaces the list (reset) or is
        appended to it, `hasMore` is copied from the response and the page
        counter becomes 2 (reset) or goes up by one; on failure only the
        error is set. Either way loading and refreshing end. */
    method CompleteLoad(reset: bool, requestCategory: string, requestPage: int, fails: bool)
      modifies this
      ensures !loading && !refreshing && category == old(category)
      ensures fails ==>
        && error == Some(LoadFailedMessage)
        && news == old(news) && page == old(page) && hasMore == old(hasMore)
      ensures !fails ==>
        var response := FetchMockNews(articles, requestCategory, requestPage);
        && error == old(error)
        && news == (if reset then response.articles else old(news) + response.articles)
        && hasMore == response.hasMore
        && page == (if reset then 2 else old(page) + 1)
      ensures !fails && reset && requestPage == 1 ==> ShowsPages(requestCategory)
      ensures !fails && !reset && requestPage == old(page) && old(ShowsPages(requestCategory)) ==>
        ShowsPages(requestCategory)
    {
      if fails {
        error := Some(LoadFailedMessage);
      } else {
        ApplyPage(reset, requestCategory, requestPage);
      }
      loading, refreshing := false, false;
    }

    /** The success branch of `CompleteLoad`, before the flags are cleared. */
    method ApplyPage(reset: bool, requestCategory: string, requestPage: int)
      modifies this
      ensures category == old(category) && error == old(error)
      ensures loading == old(loading) && refreshing == old(refreshing)
      ensures var response := FetchMockNews(articles, requestCategory, requestPage);
        && news == (if reset then response.articles else old(news) + response.articles)
        && hasMore == response.hasMore
        && page == (if reset then 2 else old(page) + 1)
      ensures reset && requestPage == 1 ==> ShowsPages(requestCategory)
      ensures !reset && requestPage == old(page) && old(ShowsPages(requestCategory)) ==> ShowsPages(requestCategory)
    {
      var response := FetchMockNews(articles, requestCategory, requestPage);
      news := if reset then response.articles else news + response.articles;
      hasMore := response.hasMore;
      page := if reset then 2 else page + 1;
    }

    /** `handleRefresh`: refreshing, and a reset load begins. */
    method HandleRefresh() returns (requestCategory: string, requestPage: int)
      modifies this
      ensures refreshing && loading && error.None?
      ensures requestCategory == category && requestPage == 1
      ensures news == old(news) && category == old(category) && page == old(page) && hasMore == old(hasMore)
    {
      refreshing := true;
      requestCategory, requestPage := BeginLoad(true);
    }

    /** `handleCategoryChange` with the effect on `category`: a new category
        begins a reset load; choosing the current one changes nothing. */
    method HandleCategoryChange(newCategory: string) returns (started: bool, requestCategory: string, requestPage: int)
      modifies this
      ensures category == newCategory
      ensures started == (newCategory != old(category))
      ensures started ==> loading && error.None? && requestCategory == newCategory && requestPage == 1
      ensures !started ==> loading == old(loading) && error == old(error)
      ensures news == old(news) && page == old(page) && hasMore == old(hasMore) && refreshing == old(refreshing)
    {
      started := newCategory != category;
      requestCategory, requestPage := newCategory, 1;
      if started {
        category := newCategory;
        requestCategory, requestPage := BeginLoad(true);
      }
    }

    /** `handleLoadMore`: the next page is requested only while nothing is
        loading and more is known to follow. */
    method HandleLoadMore() returns (started: bool, requestCategory: string, requestPage: int)
      modifies this
      ensures started == (!old(loading) && old(hasMore))
      ensures started ==> loading && error.None? && requestCategory == category && requestPage == page
      ensures !started ==> loading == old(loading) && error == old(error)
      ensures news == old(news) && category == old(category) && page == old(page)
      ensures hasMore == old(hasMore) && refreshing == old(refreshing)
    {
      started := !loading && hasMore;
      requestCategory, requestPage := category, page;
      if started {
        requestCategory, requestPage := BeginLoad(false);
      }
    }
  }

  /** Once the list shows the first pages and the last response said
      nothing follows, the list is the whole category, each article once. */
  lemma ShowsAllWhenDone(articles: seq<Article>, c: string, page: int)
    requires page >= 2 && !FetchMockNews(articles, c, page - 1).hasMore
    ensures FirstPages(articles, c, page - 1) == Filtered(articles, c)
  {
    FirstPagesPrefix(articles, c, page - 1);
  }
}
