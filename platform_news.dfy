/** The news functions of the news-platform web app
    (app/news-platform/src/api/news.ts): the category filter, the search,
    the preference ranking and the fetch that falls back to mock data for
    good once the API has failed. */
module PlatformNews {
  import opened Wrappers
  import opened Strings
  import opened Seqs

  /** A news item of the `NewsResponse` the API returns. */
  datatype Item = Item(
    title: string,
    description: string,
    summary: string,
    content: string,
    publishedAt: string,
    category: string,
    source: string,
    image_url: string,
    article_id: string)

  /** The number of items the personalised list keeps. */
  const PersonalizedLimit: nat := 10
  /** The number of items kept when there are no preferences. */
  const UnpersonalizedLimit: nat := 5

  // ---------------------------------------------------------------- category filter

  /** `!category` for a `string | null`: null and the empty string. */
  predicate NoCategory(category: Option<string>) {
    category.None? || category.value == ""
  }

  predicate SameCategory(item: Item, category: string) {
    ToLower(item.category) == ToLower(category)
  }

  /** `getNewsByCategory`: without a category the items are returned as they
      are; otherwise exactly the items whose category equals it ignoring
      case, each as often as it occurs, in their order. */
  function GetNewsByCategory(items: seq<Item>, category: Option<string>): (r: seq<Item>)
    ensures NoCategory(category) ==> r == items
    ensures !NoCategory(category) ==>
      && (forall x :: x in r <==> x in items && SameCategory(x, category.value))
      && (forall x :: x in items && SameCategory(x, category.value) ==> multiset(r)[x] == multiset(items)[x])
      && IsSubseq(r, items)
  {
    if NoCategory(category) then items
    else
      var keep := (x: Item) => SameCategory(x, category.value);
      FilterSpec(items, keep);
      Filter(items, keep)
  }

  /** Filtering by the same category twice is filtering once. */
  lemma GetNewsByCategoryIdempotent(items: seq<Item>, category: Option<string>)
    ensures GetNewsByCategory(GetNewsByCategory(items, category), category) == GetNewsByCategory(items, category)
  {
    if !NoCategory(category) {
      FilterIdempotent(items, (x: Item) => SameCategory(x, category.value));
    }
  }

  // ---------------------------------------------------------------- search

  /** The item's title, description, content or category contains the
      (already normalised) query, ignoring the case of the item's text. */
  predicate MatchesQuery(item: Item, q: string) {
    || Contains(ToLower(item.title), q)
    || Contains(ToLower(item.description), q)
    || Contains(ToLower(item.content), q)
    || Contains(ToLower(item.category), q)
  }

  /** `query.toLowerCase().trim()`. */
  function NormalizeQuery(query: string): string {
    Trim(ToLower(query))
  }

  /** `searchNews`: an empty or blank query returns the items as they are;
      otherwise exactly the items matching the lower-cased, trimmed query,
      each as often as it occurs, in their order. */
  function SearchNews(items: seq<Item>, query: string): (r: seq<Item>)
    ensures IsBlank(query) ==> r == items
    ensures !IsBlank(query) ==>
      && (forall x :: x in r <==> x in items && MatchesQuery(x, NormalizeQuery(query)))
      && (forall x :: x in items && MatchesQuery(x, NormalizeQuery(query)) ==> multiset(r)[x] == multiset(items)[x])
      && IsSubseq(r, items)
  {
    if query == [] || Trim(query) == [] then items
    else
      var q := NormalizeQuery(query);
      var keep := (x: Item) => MatchesQuery(x, q);
      FilterSpec(items, keep);
      Filter(items, keep)
  }

  /** Searching twice for the same query is searching once. */
  lemma SearchNewsIdempotent(items: seq<Item>, query: string)
    ensures SearchNews(SearchNews(items, query), query) == SearchNews(items, query)
  {
    if !IsBlank(query) {
      FilterIdempotent(items, (x: Item) => MatchesQuery(x, NormalizeQuery(query)));
    }
  }

  // ---------------------------------------------------------------- ranking

  /** `preferences[category] || 0`. */
  function Score(prefs: map<string, int>, category: string): int {
    if category in prefs then prefs[category] else 0
  }

  function ScoreOf(prefs: map<string, int>): Item -> int {
    (x: Item) => Score(prefs, x.category)
  }

  /** The non-empty-preferences branch of `fetchPersonalizedNews`: sort a
      copy by descending score (stable), keep the first ten. */
  function RankByPreferences(items: seq<Item>, prefs: map<string, int>): seq<Item> {
    Take(SortDesc(items, ScoreOf(prefs)), PersonalizedLimit)
  }

  /** What the ranking promises: at most ten items, all taken from the
      input, scores never increase, no item left out scores higher than one
      kept, equal scores keep their input order, and with ten items or fewer
      nothing is dropped, not even items scoring zero. */
  lemma RankByPreferencesSpec(items: seq<Item>, prefs: map<string, int>)
    ensures var r := RankByPreferences(items, prefs);
      var score := ScoreOf(prefs);
      && |r| == (if |items| < PersonalizedLimit then |items| else PersonalizedLimit)
      && NonIncreasing(r, score)
      && multiset(r) <= multiset(items)
      && (|items| <= PersonalizedLimit ==> multiset(r) == multiset(items))
      && (forall x, y :: multiset(r)[x] < multiset(items)[x] && y in r ==> score(y) >= score(x))
      && (forall k :: WithKey(r, score, k) <= WithKey(items, score, k))
  {
    TopByKey(items, ScoreOf(prefs), PersonalizedLimit);
  }

  /** `fetchPersonalizedNews` once the items are fetched. Missing or empty
      preferences select five items in a random order; `shuffled` is that
      order (the items rearranged). */
  function PersonalizedNews(items: seq<Item>, prefs: Option<map<string, int>>, shuffled: seq<Item>): (r: seq<Item>)
    requires multiset(shuffled) == multiset(items)
    ensures prefs.None? || prefs.value == map[] ==>
      && |r| == (if |items| < UnpersonalizedLimit then |items| else UnpersonalizedLimit)
      && multiset(r) <= multiset(items)
    ensures prefs.Some? && prefs.value != map[] ==> r == RankByPreferences(items, prefs.value)
  {
    if prefs.None? || |prefs.value| == 0 then
      var r := Take(shuffled, UnpersonalizedLimit);
      assert |shuffled| == |multiset(shuffled)| == |multiset(items)| == |items|;
      assert shuffled == r + shuffled[|r|..];
      r
    else RankByPreferences(items, prefs.value)
  }

  // ---------------------------------------------------------------- the fetch latch

  /** The module-level `useMockData` flag with the mock items it falls back
      to. The mock items are one shared array, handed out by reference. */
  class NewsApi {
    var useMockData: bool
    var mockItems: seq<Item>

    constructor (mockItems: seq<Item>)
      ensures !useMockData && this.mockItems == mockItems
    {
      useMockData := false;
      this.mockItems := mockItems;
    }

    /** `fetchNews`. `apiResult` is what the request would return: None for
        a failure. Once the flag is set the API is not called again and the
        mock items come back; a failure sets the flag and returns them. */
    method FetchNews(apiResult: Option<seq<Item>>) returns (items: seq<Item>, calledApi: bool)
      modifies this
      ensures calledApi == !old(useMockData)
      ensures useMockData == (old(useMockData) || apiResult.None?)
      ensures items == if !old(useMockData) && apiResult.Some? then apiResult.value else mockItems
      ensures mockItems == old(mockItems)
    {
      if useMockData {
        return mockItems, false;
      }
      calledApi := true;
      match apiResult {
        case Some(data) =>
          items := data;
        case None =>
          useMockData := true;
          items := mockItems;
      }
    }

    /** `fetchPersonalizedNews`: fetch, then rank (or pick at random).
        `order` is the random in-place sort; without preferences it
        rearranges the fetched array itself, so when that array is the
        shared mock array every later fetch sees the new order. */
    method FetchPersonalizedNews(prefs: Option<map<string, int>>, apiResult: Option<seq<Item>>,
                                 order: seq<Item> -> seq<Item>)
      returns (r: seq<Item>)
      requires forall s :: multiset(order(s)) == multiset(s)
      modifies this
      ensures useMockData == (old(useMockData) || apiResult.None?)
      ensures var fetched := if !old(useMockData) && apiResult.Some? then apiResult.value else old(mockItems);
        r == PersonalizedNews(fetched, prefs, order(fetched))
      ensures mockItems == if useMockData && (prefs.None? || prefs.value == map[]) then order(old(mockItems)) else old(mockItems)
    {
      var items, _ := FetchNews(apiResult);
      var shuffled := order(items);
      r := PersonalizedNews(items, prefs, shuffled);
      if useMockData && (prefs.None? || |prefs.value| == 0) {
        mockItems := shuffled;
      }
    }
  }
}
