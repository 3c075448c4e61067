/** The label the old news app's category bar shows for a category
    (NewsAppOld/src/components/CategoryFilter.tsx). */
module CategoryLabel {
  import opened Strings

  /** `formatCategoryName`: "all" is shown as "All"; any other name with its
      first character upper-cased and the rest as it is. */
  function FormatCategoryName(category: string): (r: string)
    ensures category == "all" ==> r == "All"
    ensures category != "all" ==> |r| == |category|
    ensures category != "all" && category != [] ==> r[0] == UpperChar(category[0]) && r[1..] == category[1..]
    ensures category == [] ==> r == []
  {
    if category == "all" then "All"
    else if category == [] then []
    else [UpperChar(category[0])] + category[1..]
  }

  /** A formatted label is left as it is by formatting it again. */
  lemma FormatCategoryNameIdempotent(category: string)
    ensures FormatCategoryName(FormatCategoryName(category)) == FormatCategoryName(category)
  {
    var r := FormatCategoryName(category);
    if r != [] {
      assert r[0] != 'a' by {
        if category != "all" {
          assert r[0] == UpperChar(category[0]);
        }
      }
      assert r != "all";
      UpperCharIdempotent(r[0]);
      assert [UpperChar(r[0])] + r[1..] == r;
    }
  }

  /** Two names with the same label differ at most in the case of their
      first character, or one of them is "all" and the other "All". */
  lemma FormatCategoryNameCollisions(a: string, b: string)
    requires FormatCategoryName(a) == FormatCategoryName(b) && a != b
    ensures (a == "all" && b == "All") || (a == "All" && b == "all")
            || (|a| == |b| > 0 && a[1..] == b[1..] && UpperChar(a[0]) == UpperChar(b[0]))
  {
    if a != "all" && b != "all" && a != [] && b != [] {
      assert FormatCategoryName(a)[1..] == a[1..];
      assert FormatCategoryName(b)[1..] == b[1..];
    }
  }
}
