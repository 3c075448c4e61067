/** The mock news service of the old news app
    (NewsAppOld/src/services/newsService.ts): a fixed set of fifty generated
    articles, filtered by category and cut into pages of ten. */
module MockNewsService {
  import opened Wrappers
  import opened Strings
  import opened Seqs

  /** `NewsArticle`; `publishedAt` is the millisecond timestamp the ISO
      date string is made from. */
  datatype Article = Article(
    id: string,
    title: string,
    summary: string,
    source: string,
    url: string,
    category: string,
    publishedAt: int,
    imageUrl: Option<string>)

  /** `NewsResponse`: the page, whether another follows, and its number. */
  datatype NewsResponse = NewsResponse(articles: seq<Article>, hasMore: bool, nextPage: Option<int>)

  const ItemsPerPage: nat := 10
  const ArticleCount: nat := 50
  const AllCategory: string := "all"
  const HourMillis: int := 3600000

  /** The categories the generated articles cycle through, in order. */
  const FixtureCategories: seq<string> :=
    ["business", "entertainment", "general", "health", "science", "sports", "technology"]

  // ---------------------------------------------------------------- the fixture

  /** Article `i` of the fixture, generated at time `now`. */
  function MockArticle(i: nat, now: int): Article {
    var category := FixtureCategories[i % |FixtureCategories|];
    Article(
      "article-" + NatToString(i),
      "News Article " + NatToString(i + 1),
      "This is a summary of news article " + NatToString(i + 1)
        + ". It contains important information about recent events in the " + category + " category.",
      "News Source " + NatToString(i % 5 + 1),
      "https://example.com/news",
      category,
      now - i * HourMillis,
      if i % 3 == 0 then Some("https://picsum.photos/seed/" + NatToString(i) + "/400/200") else None)
  }

  /** `generateMockArticles`, with the clock reading as a parameter. */
  function MockArticles(now: int): (r: seq<Article>)
    ensures |r| == ArticleCount
  {
    seq(ArticleCount, i requires 0 <= i < ArticleCount => MockArticle(i, now))
  }

  /** The fixture: fifty articles, article `i` called "article-i", in the
      category `i mod 7` of the list, an hour older than the one before, with
      an image exactly when `i mod 3 = 0`; every one is in one of the seven
      categories. */
  lemma MockArticlesSpec(now: int)
    ensures var r := MockArticles(now);
      && |r| == 50
      && (forall i :: 0 <= i < |r| ==> r[i].id == "article-" + NatToString(i))
      && (forall i :: 0 <= i < |r| ==> r[i].category == FixtureCategories[i % 7])
      && (forall i :: 0 <= i < |r| ==> (r[i].imageUrl.Some? <==> i % 3 == 0))
      && (forall i :: 0 <= i < |r| ==> r[i].publishedAt == now - i * HourMillis)
      && (forall a :: a in r ==> a.category in FixtureCategories)
  {
  }

  /** No two fixture articles share an id. */
  lemma MockArticleIdsDistinct(now: int)
    ensures var r := MockArticles(now);
      forall i, j :: 0 <= i < j < |r| ==> r[i].id != r[j].id
  {
    var r := MockArticles(now);
    forall i, j | 0 <= i < j < |r| ensures r[i].id != r[j].id {
      var p := "article-";
      if r[i].id == r[j].id {
        assert NatToString(i) == r[i].id[|p|..];
        assert NatToString(j) == r[j].id[|p|..];
        NatToStringInjective(i, j);
      }
    }
  }

  // ---------------------------------------------------------------- fetchMockNews

  /** The index a relative `slice` bound stands for: negative counts from
      the end; clamped into `[0, len]`. */
  function SliceBound(rel: int, len: nat): (k: nat)
    ensures k <= len
    ensures rel >= 0 ==> k == if rel < len then rel else len
  {
    if rel < 0 then (if len + rel < 0 then 0 else len + rel)
    else if rel < len then rel else len
  }

  /** `Array.prototype.slice(start, end)`. */
  function Slice<T>(s: seq<T>, start: int, end: int): (r: seq<T>)
    ensures |r| <= |s|
  {
    var from := SliceBound(start, |s|);
    var to := SliceBound(end, |s|);
    if from < to then s[from..to] else []
  }

  function Min(a: int, b: int): int {
    if a < b then a else b
  }

  /** The articles of a category: every article for "all", otherwise those
      whose category is exactly it. */
  function Filtered(articles: seq<Article>, category: string): (r: seq<Article>)
    ensures |r| <= |articles|
  {
    if category == AllCategory then articles
    else Filter(articles, (a: Article) => a.category == category)
  }

  /** What the filter promises: "all" keeps everything; any other category
      keeps exactly its own articles, each as often as it occurs, in order. */
  lemma FilteredSpec(articles: seq<Article>, category: string)
    ensures category == AllCategory ==> Filtered(articles, category) == articles
    ensures category != AllCategory ==>
      var r := Filtered(articles, category);
      && (forall a :: a in r <==> a in articles && a.category == category)
      && (forall a :: a in r ==> multiset(r)[a] == multiset(articles)[a])
      && IsSubseq(r, articles)
  {
    if category != AllCategory {
      FilterSpec(articles, (a: Article) => a.category == category);
    }
  }

  /** A category no fixture article has, "all" aside, has no articles. */
  lemma UnknownCategoryEmpty(now: int, category: string)
    requires category != AllCategory && category !in FixtureCategories
    ensures Filtered(MockArticles(now), category) == []
  {
    MockArticlesSpec(now);
    FilterNone(MockArticles(now), (a: Article) => a.category == category);
  }

  /** `fetchMockNews(category, page)` over the stored articles. */
  function FetchMockNews(articles: seq<Article>, category: string, page: int): (r: NewsResponse)
    ensures |r.articles| <= ItemsPerPage
    ensures r.nextPage.Some? <==> r.hasMore
    ensures r.hasMore ==> r.nextPage.value == page + 1
    ensures page >= 1 ==>
      var f := Filtered(articles, category);
      && (r.hasMore <==> page * ItemsPerPage < |f|)
      && r.articles == f[Min((page - 1) * ItemsPerPage, |f|)..Min(page * ItemsPerPage, |f|)]
  {
    var filtered := Filtered(articles, category);
    var startIndex := (page - 1) * ItemsPerPage;
    var endIndex := startIndex + ItemsPerPage;
    var hasMore := endIndex < |filtered|;
    NewsResponse(Slice(filtered, startIndex, endIndex), hasMore, if hasMore then Some(page + 1) else None)
  }

  /** A page past the end is empty and says nothing follows. */
  lemma PastTheEnd(articles: seq<Article>, category: string, page: int)
    requires page >= 1 && (page - 1) * ItemsPerPage >= |Filtered(articles, category)|
    ensures FetchMockNews(articles, category, page).articles == []
    ensures !FetchMockNews(articles, category, page).hasMore
  {
  }

  /** Page 0 (never requested by the app) is empty yet claims more follow
      whenever the category has any article. */
  lemma PageZero(articles: seq<Article>, category: string)
    requires |Filtered(articles, category)| > 0
    ensures FetchMockNews(articles, category, 0).articles == []
    ensures FetchMockNews(articles, category, 0).hasMore
  {
  }

  // ---------------------------------------------------------------- paging through

  /** Pages 1 to `k` one after the other. */
  function FirstPages(articles: seq<Article>, category: string, k: nat): seq<Article> {
    if k == 0 then [] else FirstPages(articles, category, k - 1) + FetchMockNews(articles, category, k).articles
  }

  /** The first `k` pages are the first `10k` articles of the category (all
      of them once there are fewer). */
  lemma {:induction false} FirstPagesPrefix(articles: seq<Article>, category: string, k: nat)
    ensures var f := Filtered(articles, category);
      FirstPages(articles, category, k) == f[..Min(k * ItemsPerPage, |f|)]
  {
    if k > 0 {
      FirstPagesPrefix(articles, category, k - 1);
      var f := Filtered(articles, category);
      var a := Min((k - 1) * ItemsPerPage, |f|);
      var b := Min(k * ItemsPerPage, |f|);
      assert f[..a] + f[a..b] == f[..b];
    }
  }

  /** Pages from `page` on, requested while the previous one says more follow. */
  function PagesFrom(articles: seq<Article>, category: string, page: int): seq<Article>
    requires page >= 1
    decreases |Filtered(articles, category)| - (page - 1) * ItemsPerPage
  {
    var r := FetchMockNews(articles, category, page);
    if r.hasMore then r.articles + PagesFrom(articles, category, page + 1) else r.articles
  }

  lemma {:induction false} PagesFromSuffix(articles: seq<Article>, category: string, page: int)
    requires page >= 1
    ensures var f := Filtered(articles, category);
      PagesFrom(articles, category, page) == f[Min((page - 1) * ItemsPerPage, |f|)..]
    decreases |Filtered(articles, category)| - (page - 1) * ItemsPerPage
  {
    var f := Filtered(articles, category);
    var a := Min((page - 1) * ItemsPerPage, |f|);
    var b := Min(page * ItemsPerPage, |f|);
    if FetchMockNews(articles, category, page).hasMore {
      PagesFromSuffix(articles, category, page + 1);
      assert f[a..b] + f[b..] == f[a..];
    }
  }

  /** Requesting pages 1, 2, ... until one says nothing follows yields every
      article of the category exactly once, in order. */
  lemma PagingReadsAll(articles: seq<Article>, category: string)
    ensures PagesFrom(articles, category, 1) == Filtered(articles, category)
  {
    PagesFromSuffix(articles, category, 1);
  }
}
