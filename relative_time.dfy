/** The age a news card shows for its article
    (NewsAppOld/src/components/NewsCard.tsx): whole hours under a day,
    whole days after that. Both instants are millisecond timestamps. */
module RelativeTime {
  import opened Strings

  const HourMillis: int := 1000 * 60 * 60
  const HoursPerDay: int := 24

  datatype Unit = Hours | Days

  /** The age as a count and the unit it is counted in. */
  datatype Age = Age(count: int, unit: Unit)

  /** `Math.floor(elapsed / (1000 * 60 * 60))`: the whole hours elapsed,
      rounded down, also for a date in the future. */
  function ElapsedHours(now: int, published: int): (h: int)
    ensures h * HourMillis <= now - published < (h + 1) * HourMillis
  {
    (now - published) / HourMillis
  }

  /** The age: hours while under 24 of them, otherwise whole days. */
  function AgeOf(now: int, published: int): (a: Age)
    ensures a.unit == Hours <==> now - published < HoursPerDay * HourMillis
    ensures a.unit == Hours ==> a.count * HourMillis <= now - published < (a.count + 1) * HourMillis
    ensures a.unit == Days ==>
      a.count >= 1 && a.count * HoursPerDay * HourMillis <= now - published < (a.count + 1) * HoursPerDay * HourMillis
  {
    var h := ElapsedHours(now, published);
    if h < HoursPerDay then Age(h, Hours)
    else
      var d := h / HoursPerDay;
      assert d * HoursPerDay <= h < (d + 1) * HoursPerDay;
      MulMonotone(d * HoursPerDay, h, HourMillis);
      MulMonotone(h + 1, (d + 1) * HoursPerDay, HourMillis);
      Age(d, Days)
  }

  lemma MulMonotone(a: int, b: int, c: nat)
    requires a <= b
    ensures a * c <= b * c
  {
  }

  /** "<count> <unit> ago", the unit singular exactly when the count is 1. */
  function Render(a: Age): (s: string)
    ensures |s| >= 5 && s[|s| - 4..] == " ago"
    ensures s[|s| - 5] == 's' <==> a.count != 1
    ensures |IntToString(a.count)| < |s| && s[..|IntToString(a.count)| + 1] == IntToString(a.count) + " "
    ensures |IntToString(a.count)| + 1 <= |s| - 4
    ensures var unit := if a.unit == Hours then "hour" else "day";
      s[|IntToString(a.count)| + 1..|s| - 4] == if a.count == 1 then unit else unit + "s"
  {
    var unit := if a.unit == Hours then "hour" else "day";
    IntToString(a.count) + " " + (if a.count == 1 then unit else unit + "s") + " ago"
  }

  /** `formatDate(publishedAt)` at time `now`: with `h` the whole hours
      elapsed, "h hour(s) ago" below 24 of them, otherwise "d day(s) ago"
      for the whole days `h / 24`. */
  function FormatDate(now: int, published: int): (r: string)
    ensures var h := (now - published) / HourMillis;
      h < HoursPerDay ==> r == IntToString(h) + (if h == 1 then " hour ago" else " hours ago")
    ensures var h := (now - published) / HourMillis;
      h >= HoursPerDay ==> r == IntToString(h / HoursPerDay) + (if h / HoursPerDay == 1 then " day ago" else " days ago")
  {
    var h := ElapsedHours(now, published);
    var a := AgeOf(now, published);
    assert a == if h < HoursPerDay then Age(h, Hours) else Age(h / HoursPerDay, Days);
    RenderWords(a);
    Render(a)
  }

  /** Render spelled out with the unit words of each case. */
  lemma RenderWords(a: Age)
    ensures Render(a) == IntToString(a.count) +
      if a.unit == Hours then (if a.count == 1 then " hour ago" else " hours ago")
      else (if a.count == 1 then " day ago" else " days ago")
  {
    var n := IntToString(a.count);
    if a.unit == Hours {
      assert n + " " + "hour" + " ago" == n + " hour ago";
      assert n + " " + ("hour" + "s") + " ago" == n + " hours ago";
    } else {
      assert n + " " + "day" + " ago" == n + " day ago";
      assert n + " " + ("day" + "s") + " ago" == n + " days ago";
    }
  }

  /** Exactly the first hour after publication reads "1 hour ago", exactly
      the day after the first reads "1 day ago" (24 to 47 whole hours). */
  lemma SingularAges(now: int, published: int)
    ensures AgeOf(now, published) == Age(1, Hours) <==> HourMillis <= now - published < 2 * HourMillis
    ensures AgeOf(now, published) == Age(1, Days) <==>
      HoursPerDay * HourMillis <= now - published < 2 * HoursPerDay * HourMillis
  {
  }

  /** A date in the future counts as a negative number of hours. */
  lemma FutureDates(now: int, published: int)
    requires published > now
    ensures AgeOf(now, published).unit == Hours && AgeOf(now, published).count < 0
  {
  }
}
