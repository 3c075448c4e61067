/** Per-category preference counts, the `{ [category: string]: number }`
    maps both web apps keep on their user. */
module PreferenceCounts {
  /** `(prefs[category] || 0)`. */
  function Count(prefs: map<string, int>, category: string): int {
    if category in prefs then prefs[category] else 0
  }

  /** `prefs[category] = (prefs[category] || 0) + 1`: that count goes up by
      one, starting from 0, and every other entry is kept. */
  function Increment(prefs: map<string, int>, category: string): (r: map<string, int>)
    ensures r.Keys == prefs.Keys + {category}
    ensures r[category] == Count(prefs, category) + 1
    ensures forall c :: c != category ==> Count(r, c) == Count(prefs, c)
  {
    prefs[category := Count(prefs, category) + 1]
  }

  /** Counting two visits does not depend on their order. */
  lemma IncrementCommutes(prefs: map<string, int>, a: string, b: string)
    ensures Increment(Increment(prefs, a), b) == Increment(Increment(prefs, b), a)
  {
    var ab := Increment(Increment(prefs, a), b);
    var ba := Increment(Increment(prefs, b), a);
    assert ab.Keys == ba.Keys;
    forall c | c in ab.Keys ensures ab[c] == ba[c] {
      assert Count(ab, c) == ab[c] && Count(ba, c) == ba[c];
    }
  }
}
