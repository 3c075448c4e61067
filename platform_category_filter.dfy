/** The category bar of the news-platform web app
    (app/news-platform/src/components/CategoryFilter.tsx): the sorted list
    of distinct categories and the click handler that forwards the choice
    and counts it as a preference. */
module PlatformCategoryFilter {
  import opened Wrappers
  import PlatformNews
  import PlatformAuth

  /** The default order of `Array.prototype.sort`: `a` comes before `b`
      character by character, a proper prefix first. */
  predicate LexLess(a: string, b: string) {
    if a == [] then b != []
    else b != [] && (a[0] < b[0] || (a[0] == b[0] && LexLess(a[1..], b[1..])))
  }

  lemma {:induction false} LexLessIrreflexive(a: string)
    ensures !LexLess(a, a)
  {
    if a != [] {
      LexLessIrreflexive(a[1..]);
    }
  }

  lemma {:induction false} LexLessTransitive(a: string, b: string, c: string)
    requires LexLess(a, b) && LexLess(b, c)
    ensures LexLess(a, c)
  {
    if a != [] && a[0] == b[0] && b[0] == c[0] {
      LexLessTransitive(a[1..], b[1..], c[1..]);
    }
  }

  lemma {:induction false} LexLessTotal(a: string, b: string)
    requires a != b
    ensures LexLess(a, b) || LexLess(b, a)
  {
    if a != [] && b != [] && a[0] == b[0] {
      assert a == [a[0]] + a[1..] && b == [b[0]] + b[1..];
      LexLessTotal(a[1..], b[1..]);
    }
  }

  ghost predicate StrictlySorted(s: seq<string>) {
    forall i, j :: 0 <= i < j < |s| ==> LexLess(s[i], s[j])
  }

  /** Adding `x` to a sorted list of distinct strings. */
  function Insert(x: string, s: seq<string>): (r: seq<string>)
    ensures forall y :: y in r <==> y == x || y in s
  {
    if s == [] then [x]
    else if x == s[0] then s
    else if LexLess(x, s[0]) then [x] + s
    else [s[0]] + Insert(x, s[1..])
  }

  lemma {:induction false} InsertSorted(x: string, s: seq<string>)
    requires StrictlySorted(s)
    ensures StrictlySorted(Insert(x, s))
  {
    if s != [] && x != s[0] {
      if LexLess(x, s[0]) {
        var r := [x] + s;
        forall i, j | 0 <= i < j < |r| ensures LexLess(r[i], r[j]) {
          if i == 0 && j > 1 {
            LexLessTransitive(x, s[0], s[j - 1]);
          }
        }
      } else {
        LexLessTotal(x, s[0]);
        InsertSorted(x, s[1..]);
        var rest := Insert(x, s[1..]);
        var r := [s[0]] + rest;
        forall i, j | 0 <= i < j < |r| ensures LexLess(r[i], r[j]) {
          if i == 0 {
            assert r[j] in rest;
            if r[j] != x {
              var m :| 0 <= m < |s[1..]| && s[1..][m] == r[j];
              assert s[m + 1] == r[j];
            }
          } else {
            assert r[i] == rest[i - 1] && r[j] == rest[j - 1];
          }
        }
      }
    }
  }

  /** `Array.from(new Set(categories)).sort()`. */
  function SortedUnique(cs: seq<string>): seq<string> {
    if cs == [] then [] else Insert(cs[0], SortedUnique(cs[1..]))
  }

  /** The category list of a set of items. */
  function UniqueCategories(items: seq<PlatformNews.Item>): seq<string> {
    SortedUnique(seq(|items|, i requires 0 <= i < |items| => items[i].category))
  }

  /** What the category list promises: every category of the items, nothing
      else, each once, in ascending order. */
  lemma {:induction false} SortedUniqueSpec(cs: seq<string>)
    ensures var r := SortedUnique(cs);
      && StrictlySorted(r)
      && (forall c :: c in r <==> c in cs)
      && (forall i, j :: 0 <= i < j < |r| ==> r[i] != r[j])
  {
    if cs != [] {
      SortedUniqueSpec(cs[1..]);
      InsertSorted(cs[0], SortedUnique(cs[1..]));
      assert cs == [cs[0]] + cs[1..];
    }
    var r := SortedUnique(cs);
    forall i, j | 0 <= i < j < |r| ensures r[i] != r[j] {
      LexLessIrreflexive(r[i]);
    }
  }

  /** The list does not depend on the order or repetition of the categories. */
  lemma SortedUniqueCanonical(cs: seq<string>, ds: seq<string>)
    requires forall c :: c in cs <==> c in ds
    ensures SortedUnique(cs) == SortedUnique(ds)
  {
    SortedUniqueSpec(cs);
    SortedUniqueSpec(ds);
    SortedListUnique(SortedUnique(cs), SortedUnique(ds));
  }

  /** The head of a strictly sorted list comes before every other element. */
  lemma SortedHeadLeast(s: seq<string>, c: string)
    requires StrictlySorted(s) && c in s && c != s[0]
    ensures LexLess(s[0], c)
  {
    var m :| 0 <= m < |s| && s[m] == c;
  }

  lemma SameMembersEmpty(r: seq<string>, s: seq<string>)
    requires forall c :: c in r <==> c in s
    ensures r == [] <==> s == []
  {
    if r != [] {
      assert r[0] in r;
    }
    if s != [] {
      assert s[0] in s;
    }
  }

  /** Two strictly sorted lists with the same elements are equal. */
  lemma {:induction false} SortedListUnique(r: seq<string>, s: seq<string>)
    requires StrictlySorted(r) && StrictlySorted(s)
    requires forall c :: c in r <==> c in s
    ensures r == s
  {
    SameMembersEmpty(r, s);
    if r != [] {
      assert r[0] == s[0] by {
        if r[0] != s[0] {
          SortedHeadLeast(s, r[0]);
          SortedHeadLeast(r, s[0]);
          LexLessTransitive(r[0], s[0], r[0]);
          LexLessIrreflexive(r[0]);
        }
      }
      forall c ensures c in r[1..] <==> c in s[1..] {
        if c in r[1..] {
          var m :| 0 <= m < |r[1..]| && r[1..][m] == c;
          assert LexLess(r[0], r[m + 1]);
          LexLessIrreflexive(c);
          assert c in s;
        }
        if c in s[1..] {
          var m :| 0 <= m < |s[1..]| && s[1..][m] == c;
          assert LexLess(s[0], s[m + 1]);
          LexLessIrreflexive(c);
          assert c in r;
        }
      }
      SortedListUnique(r[1..], s[1..]);
      assert r == [r[0]] + r[1..] && s == [s[0]] + s[1..];
    }
  }

  /** The component's state: its category list and the selection it has
      forwarded to its parent (`onCategorySelect`). */
  class CategoryFilter {
    var categories: seq<string>
    var selected: Option<string>

    constructor (selected: Option<string>)
      ensures categories == [] && this.selected == selected
    {
      categories := [];
      this.selected := selected;
    }

    /** The effect on `news`: the list is recomputed only when there are
        items; an empty response keeps the previous list. */
    method OnNews(items: seq<PlatformNews.Item>)
      modifies this
      ensures categories == if |items| > 0 then UniqueCategories(items) else old(categories)
      ensures selected == old(selected)
    {
      if |items| > 0 {
        categories := UniqueCategories(items);
      }
    }

    /** `handleCategoryClick`: the choice is always forwarded; a truthy
        category (not "All", which is null) is counted as a preference. */
    method HandleCategoryClick(category: Option<string>, auth: PlatformAuth.AuthProvider)
      requires auth.Synced()
      modifies this, auth
      ensures selected == category && categories == old(categories)
      ensures auth.Synced()
      ensures auth.state == if category.Some? && category.value != "" then PlatformAuth.WithPreference(old(auth.state), category.value) else old(auth.state)
      ensures auth.storedUser == old(auth.storedUser) || (category.Some? && category.value != "")
    {
      selected := category;
      if category.Some? && category.value != "" {
        auth.UpdatePreferences(category.value);
      }
    }
  }
}
