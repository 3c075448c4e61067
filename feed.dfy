/** The personalisation and pagination engine of the NewsNuggets mobile app
    (app/NewsNuggets/src/hooks/useNews.ts): per-category visit counts, the
    category list, the category filter, the "For You" selection and the
    cursor-driven, de-duplicating incremental load. */
module Feed {
  import opened Wrappers
  import opened Seqs
  import opened NuggetsArticle

  /** The category that stands for "no filter"; it is never counted. */
  const AllCategory: string := "all"

  const LoadFailedMessage: string := "Failed to load news"

  // ---------------------------------------------------------------- visit counts

  /** One entry of the `Record<string, number>` of visit counts. The record is
      an association list in insertion order, as a JavaScript object keeps
      its (non-numeric) keys. */
  datatype Visit = Visit(category: string, count: int)

  type Visits = seq<Visit>

  /** The categories that have a count. */
  function Keys(v: Visits): set<string> {
    if v == [] then {} else {v[0].category} + Keys(v[1..])
  }

  /** No category is counted twice, as in an object's keys. */
  ghost predicate DistinctCategories(v: Visits) {
    v == [] || (v[0].category !in Keys(v[1..]) && DistinctCategories(v[1..]))
  }

  /** `visits[c] || 0`: the count recorded for `c`, or 0 when there is none. */
  function CountOf(v: Visits, c: string): int {
    if v == [] then 0
    else if v[0].category == c then v[0].count
    else CountOf(v[1..], c)
  }

  /** `{ ...v, [c]: (v[c] || 0) + 1 }`: an existing key keeps its place,
      a new key goes last. */
  function Bump(v: Visits, c: string): (r: Visits)
    ensures forall d :: CountOf(r, d) == if d == c then CountOf(v, d) + 1 else CountOf(v, d)
    ensures Keys(r) == Keys(v) + {c}
    ensures DistinctCategories(v) ==> DistinctCategories(r)
  {
    if v == [] then
      var r := [Visit(c, 1)];
      assert r[1..] == [];
      r
    else if v[0].category == c then
      var r := [Visit(c, v[0].count + 1)] + v[1..];
      assert r[1..] == v[1..];
      r
    else
      var r := [v[0]] + Bump(v[1..], c);
      assert r[1..] == Bump(v[1..], c);
      r
  }

  /** `trackCategoryVisit`, the state update it passes to `setCategoryVisits`:
      "all" changes nothing; any other category gains exactly one visit and
      every other count stays as it was. */
  function TrackCategoryVisit(v: Visits, cat: string): (r: Visits)
    ensures cat == AllCategory ==> r == v
    ensures cat != AllCategory ==> CountOf(r, cat) == CountOf(v, cat) + 1
    ensures forall d :: d != cat ==> CountOf(r, d) == CountOf(v, d)
    ensures Keys(r) == if cat == AllCategory then Keys(v) else Keys(v) + {cat}
    ensures DistinctCategories(v) ==> DistinctCategories(r)
  {
    if cat == AllCategory then v else Bump(v, cat)
  }

  lemma {:induction false} KeysMember(v: Visits, e: Visit)
    requires e in v
    ensures e.category in Keys(v)
  {
    if v[0] != e {
      assert e in v[1..];
      KeysMember(v[1..], e);
    }
  }

  // ---------------------------------------------------------------- categories

  /** The category of each article, in order. */
  function Categories(articles: seq<Article>): (r: seq<string>)
    ensures |r| == |articles|
    ensures forall i :: 0 <= i < |articles| ==> r[i] == articles[i].category
  {
    if articles == [] then [] else [articles[0].category] + Categories(articles[1..])
  }

  /** "all", then each non-empty string of `cs` the first time it appears:
      what adding them one by one to a `Set` seeded with "all" and reading it
      back (in insertion order) yields. */
  function FirstSeen(cs: seq<string>): seq<string>
    decreases |cs|
  {
    if cs == [] then [AllCategory]
    else
      var acc := FirstSeen(cs[..|cs| - 1]);
      var c := cs[|cs| - 1];
      if c != "" && c !in acc then acc + [c] else acc
  }

  /** The category list built from a page of articles. */
  function CategoriesSeen(articles: seq<Article>): seq<string> {
    FirstSeen(Categories(articles))
  }

  /** `extractCategories`: a `Set` seeded with "all", filled in a loop. */
  method ExtractCategories(articles: seq<Article>) returns (cats: seq<string>)
    ensures cats == CategoriesSeen(articles)
  {
    ghost var cs := Categories(articles);
    cats := [AllCategory];
    var i := 0;
    while i < |articles|
      invariant 0 <= i <= |articles|
      invariant cats == FirstSeen(cs[..i])
    {
      var c := articles[i].category;
      if c != "" && c !in cats {
        cats := cats + [c];
      }
      assert cs[..i + 1][..i] == cs[..i];
      i := i + 1;
    }
    assert cs[..i] == cs;
  }

  /** The index of the first occurrence of `c`, or the length when there is none. */
  ghost function FirstPos(s: seq<string>, c: string): (p: nat)
    ensures p <= |s|
    ensures p < |s| <==> c in s
    ensures p < |s| ==> s[p] == c
    ensures forall q :: 0 <= q < p ==> s[q] != c
  {
    if s == [] then 0
    else if s[0] == c then 0
    else
      assert s == [s[0]] + s[1..];
      1 + FirstPos(s[1..], c)
  }

  /** Appending leaves the first occurrence of a present string where it was,
      and puts that of a new one at the end. */
  lemma {:induction false} FirstPosSnoc(s: seq<string>, a: string, c: string)
    ensures c in s ==> FirstPos(s + [a], c) == FirstPos(s, c)
    ensures c !in s && a == c ==> FirstPos(s + [a], c) == |s|
  {
    if s != [] && s[0] != c {
      assert (s + [a])[1..] == s[1..] + [a];
      assert s == [s[0]] + s[1..];
      FirstPosSnoc(s[1..], a, c);
    }
  }

  lemma {:induction false} FirstSeenShape(cs: seq<string>)
    ensures var r := FirstSeen(cs);
      && |r| >= 1 && r[0] == AllCategory
      && (forall i, j :: 0 <= i < j < |r| ==> r[i] != r[j])
    decreases |cs|
  {
    if cs != [] {
      FirstSeenShape(cs[..|cs| - 1]);
    }
  }

  lemma {:induction false} FirstSeenMembers(cs: seq<string>)
    ensures forall c :: c in FirstSeen(cs) <==> c == AllCategory || (c != "" && c in cs)
    decreases |cs|
  {
    if cs != [] {
      var init := cs[..|cs| - 1];
      FirstSeenMembers(init);
      assert cs == init + [cs[|cs| - 1]];
    }
  }

  lemma {:induction false} FirstSeenOrder(cs: seq<string>)
    ensures var r := FirstSeen(cs);
      forall i, j :: 1 <= i < j < |r| ==> FirstPos(cs, r[i]) < FirstPos(cs, r[j])
    decreases |cs|
  {
    if cs != [] {
      var init := cs[..|cs| - 1];
      var c := cs[|cs| - 1];
      assert cs == init + [c];
      var acc := FirstSeen(init);
      var r := FirstSeen(cs);
      FirstSeenOrder(init);
      FirstSeenShape(init);
      FirstSeenMembers(init);
      forall i | 1 <= i < |acc| ensures acc[i] in init && FirstPos(cs, acc[i]) == FirstPos(init, acc[i]) {
        assert acc[i] != acc[0];
        FirstPosSnoc(init, c, acc[i]);
      }
      if c != "" && c !in acc {
        assert c !in init;
        FirstPosSnoc(init, c, c);
        forall i, j | 1 <= i < j < |r| ensures FirstPos(cs, r[i]) < FirstPos(cs, r[j]) {
          if j == |acc| {
            assert r[j] == c && r[i] == acc[i];
          } else {
            assert r[i] == acc[i] && r[j] == acc[j];
          }
        }
      }
    }
  }

  /** What `extractCategories` promises: "all" first, then every distinct
      non-empty category of the articles exactly once, in the order of their
      first appearance. */
  lemma CategoriesSeenSpec(articles: seq<Article>)
    ensures var cats := CategoriesSeen(articles);
      && |cats| >= 1 && cats[0] == AllCategory
      && (forall i, j :: 0 <= i < j < |cats| ==> cats[i] != cats[j])
      && (forall c :: c in cats <==> c == AllCategory || (c != "" && c in Categories(articles)))
      && (forall i, j :: 1 <= i < j < |cats| ==>
            FirstPos(Categories(articles), cats[i]) < FirstPos(Categories(articles), cats[j]))
  {
    FirstSeenShape(Categories(articles));
    FirstSeenMembers(Categories(articles));
    FirstSeenOrder(Categories(articles));
  }

  // ---------------------------------------------------------------- filtering

  /** `filterNewsByCategory`: "all" returns the list itself; any other
      category keeps exactly the articles of that category (with their
      multiplicity), in their order. */
  function FilterNewsByCategory(articles: seq<Article>, cat: string): (r: seq<Article>)
    ensures cat == AllCategory ==> r == articles
    ensures cat != AllCategory ==> forall a :: a in r <==> a in articles && a.category == cat
    ensures cat != AllCategory ==> forall a :: a in articles && a.category == cat ==> multiset(r)[a] == multiset(articles)[a]
    ensures IsSubseq(r, articles)
  {
    if cat == AllCategory then
      assert IsSubseq(articles, articles) by { SubseqRefl(articles); }
      articles
    else
      FilterSpec(articles, (a: Article) => a.category == cat);
      Filter(articles, (a: Article) => a.category == cat)
  }

  lemma {:induction false} SubseqRefl<T>(s: seq<T>)
    ensures IsSubseq(s, s)
  {
    if s != [] {
      SubseqRefl(s[1..]);
    }
  }

  // ---------------------------------------------------------------- "For You"

  const TopCategoryCount: nat := 3
  const RecentLimit: nat := 10

  /** The categories of the visit entries, in their order. */
  function CategoriesOf(v: Visits): (r: seq<string>)
    ensures |r| == |v|
    ensures forall i :: 0 <= i < |v| ==> r[i] == v[i].category
  {
    seq(|v|, i requires 0 <= i < |v| => v[i].category)
  }

  /** `Object.entries(visits).sort(by count, descending).slice(0, 3).map(([cat]) => cat)`. */
  function TopCategories(v: Visits): seq<string> {
    CategoriesOf(Take(SortDesc(v, (e: Visit) => e.count), TopCategoryCount))
  }

  /** `new Date(a.publishedAt).getTime()`, supplied by the caller. */
  function Recency(time: string -> int): Article -> int {
    (a: Article) => time(a.publishedAt)
  }

  /** `createForYouNews`. Without any visit counts: the ten newest articles.
      Otherwise: every article whose category is among the top categories,
      newest first, with no limit. Both sorts are stable. */
  function CreateForYouNews(all: seq<Article>, v: Visits, time: string -> int): seq<Article> {
    var top := TopCategories(v);
    if |top| == 0 then
      Take(SortDesc(all, Recency(time)), RecentLimit)
    else
      SortDesc(Filter(all, (a: Article) => a.category in top), Recency(time))
  }

  lemma {:induction false} CountOfMember(v: Visits, e: Visit)
    requires DistinctCategories(v) && e in v
    ensures CountOf(v, e.category) == e.count
  {
    if v[0] != e {
      assert e in v[1..];
      KeysMember(v[1..], e);
      CountOfMember(v[1..], e);
    }
  }

  /** With distinct categories no entry occurs twice. */
  lemma {:induction false} DistinctOnce(v: Visits, x: Visit)
    requires DistinctCategories(v)
    ensures multiset(v)[x] <= 1
  {
    if v != [] {
      assert v == [v[0]] + v[1..];
      DistinctOnce(v[1..], x);
      if x == v[0] && x in v[1..] {
        KeysMember(v[1..], x);
      }
    }
  }

  lemma TwiceInMultiset<T>(s: seq<T>, i: nat, j: nat)
    requires i < j < |s| && s[i] == s[j]
    ensures multiset(s)[s[i]] >= 2
  {
    assert s == s[..j] + s[j..];
    assert s[i] in s[..j] && s[j] in s[j..];
  }

  /** The entries sorted by descending count, and what the sort keeps. */
  lemma SortedVisits(v: Visits)
    ensures var sorted := SortDesc(v, (e: Visit) => e.count);
      && IsStableSortDesc(sorted, v, (e: Visit) => e.count)
      && forall x :: x in sorted <==> x in v
  {
    var sorted := SortDesc(v, (e: Visit) => e.count);
    SortDescIsStable(v, (e: Visit) => e.count);
    forall x ensures x in sorted <==> x in v {
      assert x in sorted <==> x in multiset(sorted);
      assert x in v <==> x in multiset(v);
    }
  }

  /** As many top categories as there are counted ones, at most three, each
      of them counted. */
  lemma TopCategoriesSize(v: Visits)
    ensures var top := TopCategories(v);
      && |top| == (if |v| < 3 then |v| else 3)
      && forall c :: c in top ==> c in Keys(v)
  {
    var sorted := SortDesc(v, (e: Visit) => e.count);
    SortedVisits(v);
    var top := TopCategories(v);
    forall c | c in top ensures c in Keys(v) {
      var i :| 0 <= i < |top| && top[i] == c;
      assert sorted[i] in v;
      KeysMember(v, sorted[i]);
    }
  }

  /** No category is chosen twice. */
  lemma TopCategoriesDistinct(v: Visits)
    requires DistinctCategories(v)
    ensures var top := TopCategories(v);
      forall i, j :: 0 <= i < j < |top| ==> top[i] != top[j]
  {
    var sorted := SortDesc(v, (e: Visit) => e.count);
    SortedVisits(v);
    var top := TopCategories(v);
    forall i, j | 0 <= i < j < |top| ensures top[i] != top[j] {
      if top[i] == top[j] {
        assert sorted[i] in v && sorted[j] in v;
        CountOfMember(v, sorted[i]);
        CountOfMember(v, sorted[j]);
        TwiceInMultiset(sorted, i, j);
        DistinctOnce(v, sorted[i]);
        assert false;
      }
    }
  }

  /** No category left out has more visits than one chosen. */
  lemma TopCategoriesMaximal(v: Visits)
    requires DistinctCategories(v)
    ensures var top := TopCategories(v);
      forall e, i :: e in v && e.category !in top && 0 <= i < |top| ==> e.count <= CountOf(v, top[i])
  {
    var sorted := SortDesc(v, (e: Visit) => e.count);
    SortedVisits(v);
    var top := TopCategories(v);
    forall e, i | e in v && e.category !in top && 0 <= i < |top| ensures e.count <= CountOf(v, top[i]) {
      var m :| 0 <= m < |sorted| && sorted[m] == e;
      if m < |top| {
        assert false;
      }
      assert sorted[i] in v;
      CountOfMember(v, sorted[i]);
    }
  }

  /** `createForYouNews` with no visit counts: the ten newest articles (all
      of them when there are fewer), newest first, no article left out newer
      than one kept, equally new ones in their input order. */
  lemma ForYouWithoutVisits(all: seq<Article>, time: string -> int)
    ensures var r := CreateForYouNews(all, [], time);
      var newest := Recency(time);
      && |r| == (if |all| < RecentLimit then |all| else RecentLimit)
      && NonIncreasing(r, newest)
      && multiset(r) <= multiset(all)
      && (forall x, y :: multiset(r)[x] < multiset(all)[x] && y in r ==> newest(y) >= newest(x))
      && (forall k :: WithKey(r, newest, k) <= WithKey(all, newest, k))
  {
    assert TopCategories([]) == [];
    assert CreateForYouNews(all, [], time) == Take(SortDesc(all, Recency(time)), RecentLimit);
    TopByKey(all, Recency(time), RecentLimit);
  }

  /** `createForYouNews` with visit counts: exactly the articles whose
      category is among the top categories (each as often as it occurs),
      newest first, equally new ones in their input order, with no limit on
      the count. */
  lemma ForYouWithVisits(all: seq<Article>, v: Visits, time: string -> int)
    requires v != []
    ensures IsStableSortDesc(CreateForYouNews(all, v, time),
                             Filter(all, (a: Article) => a.category in TopCategories(v)), Recency(time))
  {
    TopCategoriesSize(v);
    SortDescIsStable(Filter(all, (a: Article) => a.category in TopCategories(v)), Recency(time));
  }

  /** Membership in the personalised list: with visit counts, an article is
      in it exactly when its category is one of the top categories. */
  lemma ForYouMembership(all: seq<Article>, v: Visits, time: string -> int)
    requires v != []
    ensures forall a :: a in CreateForYouNews(all, v, time) <==> a in all && a.category in TopCategories(v)
  {
    var top := TopCategories(v);
    var p := (a: Article) => a.category in top;
    ForYouWithVisits(all, v, time);
    FilterSpec(all, p);
    var r := CreateForYouNews(all, v, time);
    forall a ensures a in r <==> a in all && a.category in top {
      assert a in r <==> a in multiset(r);
      assert a in Filter(all, p) <==> a in multiset(Filter(all, p));
    }
  }

  // ---------------------------------------------------------------- incremental merge

  /** `news.some(existing => existing.id === id)`. */
  predicate HasId(news: seq<Article>, id: string) {
    exists i :: 0 <= i < |news| && news[i].id == id
  }

  /** The merge of a non-reset load: the current list, then the incoming
      articles whose id is not already in it. Repeats inside the incoming
      page itself are kept. */
  function MergeNew(news: seq<Article>, incoming: seq<Article>): seq<Article> {
    news + Filter(incoming, (a: Article) => !HasId(news, a.id))
  }

  /** What the merge promises: the current list stays as it is, at its
      start; after it come exactly the incoming articles whose id is not in
      the current list, each as often as in the page, in page order. */
  lemma MergeNewSpec(news: seq<Article>, incoming: seq<Article>)
    ensures var r := MergeNew(news, incoming);
      && |news| <= |r| && r[..|news|] == news
      && (forall a :: a in r[|news|..] ==> a in incoming && !HasId(news, a.id))
      && (forall a :: a in incoming && !HasId(news, a.id) ==> multiset(r[|news|..])[a] == multiset(incoming)[a])
      && IsSubseq(r[|news|..], incoming)
  {
    var added := Filter(incoming, (a: Article) => !HasId(news, a.id));
    FilterSpec(incoming, (a: Article) => !HasId(news, a.id));
    assert (news + added)[|news|..] == added;
  }

  // ---------------------------------------------------------------- the hook

  /** The outcome of `apiService.getNews(lastKey)`: an error (or a thrown
      exception), or a page of articles with the cursor for the next one. */
  datatype FeedResponse =
    | FetchFailed
    | Fetched(articles: seq<Article>, lastKey: Option<string>)

  /** `!!lastKey`: a cursor is present and not empty. */
  predicate CursorPresent(k: Option<string>) {
    k.Some? && k.value != ""
  }

  /** The state of one `useNews` hook. `lastKey` is `lastKeyRef.current`;
      `storedVisits` is what AsyncStorage holds under the visit-count key;
      `time` reads a `publishedAt` string as milliseconds. A load is split at
      its `await`: `BeginLoad` runs up to the request, `CompleteLoad` applies
      the response. */
  class FeedHook {
    var news: seq<Article>
    var categories: seq<string>
    var category: string
    var loading: bool
    var refreshing: bool
    var error: Option<string>
    var hasMore: bool
    var categoryVisits: Visits
    var storedVisits: Option<Visits>
    var forYouNews: seq<Article>
    var lastKey: Option<string>
    const time: string -> int

    ghost predicate Valid()
      reads this
    {
      DistinctCategories(categoryVisits)
    }

    /** The hook's initial state, after the mount effect has read the stored
        visit counts. */
    constructor (initialCategory: string, stored: Option<Visits>, time: string -> int)
      requires stored.Some? ==> DistinctCategories(stored.value)
      ensures Valid()
      ensures news == [] && categories == [AllCategory] && category == initialCategory
      ensures !loading && !refreshing && error.None? && hasMore
      ensures categoryVisits == (if stored.Some? then stored.value else [])
      ensures storedVisits == stored && forYouNews == [] && lastKey.None?
      ensures this.time == time
    {
      news := [];
      categories := [AllCategory];
      category := initialCategory;
      loading := false;
      refreshing := false;
      error := None;
      hasMore := true;
      categoryVisits := if stored.Some? then stored.value else [];
      storedVisits := stored;
      forYouNews := [];
      lastKey := None;
      this.time := time;
    }

    /** The articles the hook shows: the list filtered by the selected category. */
    function VisibleNews(): seq<Article>
      reads this
    {
      FilterNewsByCategory(news, category)
    }

    /** `loadNews(reset)` up to its request: the cursor sent is none on a
        reset and the stored cursor otherwise. */
    method BeginLoad(reset: bool) returns (requestKey: Option<string>)
      modifies this
      ensures loading && error.None?
      ensures requestKey == if reset then None else old(lastKey)
      ensures news == old(news) && categories == old(categories) && category == old(category)
      ensures refreshing == old(refreshing) && hasMore == old(hasMore)
      ensures categoryVisits == old(categoryVisits) && storedVisits == old(storedVisits)
      ensures forYouNews == old(forYouNews) && lastKey == old(lastKey)
    {
      loading := true;
      error := None;
      requestKey := if reset then None else lastKey;
    }

    /** `loadNews(reset)` after its request. A failed response sets the error
        and leaves the articles and the cursor untouched. A page stores its
        cursor, sets `hasMore` exactly when the cursor is present, replaces the
        list on a reset (recomputing the categories) or appends its new
        articles otherwise, and recomputes the "For You" list from the new
        list. Either way the loading flags are cleared. */
    method CompleteLoad(reset: bool, response: FeedResponse)
      modifies this
      ensures !loading && !refreshing
      ensures category == old(category) && categoryVisits == old(categoryVisits) && storedVisits == old(storedVisits)
      ensures response.FetchFailed? ==>
        && error == Some(LoadFailedMessage)
        && news == old(news) && lastKey == old(lastKey) && hasMore == old(hasMore)
        && categories == old(categories) && forYouNews == old(forYouNews)
      ensures response.Fetched? ==>
        && error == old(error)
        && lastKey == response.lastKey
        && hasMore == CursorPresent(response.lastKey)
        && news == (if reset then response.articles else MergeNew(old(news), response.articles))
        && categories == (if reset then CategoriesSeen(response.articles) else old(categories))
        && forYouNews == CreateForYouNews(news, categoryVisits, time)
    {
      match response {
        case FetchFailed =>
          error := Some(LoadFailedMessage);
        case Fetched(articles, key) =>
          ApplyPage(reset, articles, key);
      }
      loading, refreshing := false, false;
    }

    /** The page branch of `CompleteLoad`, before the flags are cleared. */
    method ApplyPage(reset: bool, articles: seq<Article>, key: Option<string>)
      modifies this
      ensures category == old(category) && categoryVisits == old(categoryVisits) && storedVisits == old(storedVisits)
      ensures error == old(error) && loading == old(loading) && refreshing == old(refreshing)
      ensures lastKey == key && hasMore == CursorPresent(key)
      ensures news == (if reset then articles else MergeNew(old(news), articles))
      ensures categories == (if reset then CategoriesSeen(articles) else old(categories))
      ensures forYouNews == CreateForYouNews(news, categoryVisits, time)
    {
      lastKey, hasMore := key, CursorPresent(key);
      if reset {
        news := articles;
        categories := ExtractCategories(articles);
      } else {
        news := MergeNew(news, articles);
      }
      forYouNews := CreateForYouNews(news, categoryVisits, time);
    }

    /** `handleRefresh`: marks the refresh, clears the cursor and begins a reset load. */
    method Refresh() returns (requestKey: Option<string>)
      modifies this
      ensures refreshing && loading && error.None?
      ensures lastKey.None? && requestKey.None?
      ensures news == old(news) && categories == old(categories) && category == old(category)
      ensures hasMore == old(hasMore) && categoryVisits == old(categoryVisits)
      ensures storedVisits == old(storedVisits) && forYouNews == old(forYouNews)
    {
      refreshing := true;
      lastKey := None;
      requestKey := BeginLoad(true);
    }

    /** `handleCategoryChange`: selects the category and counts the visit;
        the new counts are saved, except for "all", which is not counted. */
    method HandleCategoryChange(newCategory: string)
      requires Valid()
      modifies this
      ensures Valid()
      ensures category == newCategory
      ensures categoryVisits == TrackCategoryVisit(old(categoryVisits), newCategory)
      ensures storedVisits == if newCategory == AllCategory then old(storedVisits) else Some(categoryVisits)
      ensures news == old(news) && categories == old(categories) && loading == old(loading)
      ensures refreshing == old(refreshing) && error == old(error) && hasMore == old(hasMore)
      ensures forYouNews == old(forYouNews) && lastKey == old(lastKey)
    {
      category := newCategory;
      if newCategory != AllCategory {
        categoryVisits := TrackCategoryVisit(categoryVisits, newCategory);
        storedVisits := Some(categoryVisits);
      }
    }

    /** `handleLoadMore`: begins a non-reset load, resuming from the stored
        cursor, only when no load is running and more pages exist. */
    method HandleLoadMore() returns (started: bool, requestKey: Option<string>)
      modifies this
      ensures started == (!old(loading) && old(hasMore))
      ensures started ==> loading && error.None? && requestKey == old(lastKey)
      ensures !started ==> loading == old(loading) && error == old(error)
      ensures news == old(news) && categories == old(categories) && category == old(category)
      ensures refreshing == old(refreshing) && hasMore == old(hasMore)
      ensures categoryVisits == old(categoryVisits) && storedVisits == old(storedVisits)
      ensures forYouNews == old(forYouNews) && lastKey == old(lastKey)
    {
      started := !loading && hasMore;
      requestKey := None;
      if started {
        requestKey := BeginLoad(false);
      }
    }
  }
}
