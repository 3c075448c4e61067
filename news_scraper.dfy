/** The Bangkok Post scraper lambda (mlOps/news-nuggets/news_scraper.py):
    the links of the "most recent" listing, de-duplicated; the fields
    `get_data` extracts from each article page, with the publication date
    re-read as "%d %b %Y %H:%M" and re-written as "%Y-%m-%d %H:%M:%S"; the
    cleaning of the text fields; and the object key the run is stored under.
    HTML parsing, the HTTP client, the sleeps and S3 are parameters. */
module NewsScraper {
  import opened Wrappers
  import opened Strings
  import opened Seqs

  const WebsiteUrl: string := "https://www.bangkokpost.com"
  const NoDescription: string := "No description found"
  const LinksFailedMessage: string := "Failed to fetch the latest news links."
  const PageFailedMessage: string := "Failed to fetch a page"
  const ScrapedFolder: string := "scrapped_news"

  // ---------------------------------------------------------------- pages

  /** A `<meta>` lookup: no such tag, or the tag with its `content`
      attribute when it has one. */
  datatype Meta = Absent | Tag(content: Option<string>)

  /** An article page, as far as `get_data` reads it. `titleText` is
      `soup.title.string` (None when there is no title tag or it holds no
      single string); `paragraphs` are the texts of the `<p>` elements of the
      "article-content" div and `infoParagraphs` those of the
      "article-info--col" div (None when the div is missing). */
  datatype Page = Page(
    ogTitle: Meta,
    titleText: Option<string>,
    description: Meta,
    ogImage: Meta,
    ogUrl: Meta,
    paragraphs: Option<seq<string>>,
    infoParagraphs: Option<seq<string>>)

  /** The dictionary `get_data` returns. */
  datatype NewsItem = NewsItem(
    title: string,
    description: string,
    content: string,
    imageUrl: string,
    source: string,
    publishedAt: string)

  /** The `<title>` text after its first '-', stripped; the whole text,
      unstripped, when it has no '-'. */
  function AfterFirstDash(x: string): string {
    var i := Find(x, '-');
    if i == -1 then x else Trim(x[i + 1..])
  }

  lemma AfterFirstDashSpec(before: string, after: string)
    requires '-' !in before
    ensures AfterFirstDash(before + "-" + after) == Trim(after)
    ensures AfterFirstDash(before) == before
  {
    var x := before + "-" + after;
    assert x[|before|] == '-' && x[..|before|] == before;
    assert x[|before| + 1..] == after;
  }

  /** The title: the stripped `og:title` content when it is not empty,
      otherwise the `<title>` fallback. A missing `og:title` tag or content
      attribute, or a missing `<title>` text when it is needed, raises
      (None). */
  function Title(page: Page): (r: Option<string>)
    ensures page.ogTitle.Absent? || page.ogTitle.content.None? ==> r.None?
    ensures page.ogTitle.Tag? && page.ogTitle.content.Some? && page.ogTitle.content.value != "" ==>
      r == Some(Trim(page.ogTitle.content.value))
    ensures page.ogTitle == Tag(Some("")) ==>
      (r.Some? <==> page.titleText.Some?) && (r.Some? ==> r.value == AfterFirstDash(page.titleText.value))
  {
    match page.ogTitle
    case Absent => None
    case Tag(None) => None
    case Tag(Some(t)) =>
      if t != "" then Some(Trim(t))
      else if page.titleText.None? then None
      else Some(AfterFirstDash(page.titleText.value))
  }

  /** A meta tag's stripped content ("" without the attribute), or `missing`
      without the tag. */
  function MetaText(m: Meta, missing: string): (r: string)
    ensures m.Absent? ==> r == missing
    ensures m.Tag? ==> r == Trim(m.content.GetOr("")) && (r == [] || (!IsSpace(r[0]) && !IsSpace(r[|r| - 1])))
  {
    match m
    case Absent => missing
    case Tag(c) => Trim(c.GetOr(""))
  }

  /** The paragraph texts joined by single spaces. */
  function ParagraphText(paragraphs: seq<string>): string {
    Join(paragraphs, " ")
  }

  /** The paragraph texts joined by single spaces and stripped; "" without
      paragraphs. */
  function Content(paragraphs: seq<string>): (r: string)
    ensures r == [] || (!IsSpace(r[0]) && !IsSpace(r[|r| - 1]))
    ensures |paragraphs| == 0 ==> r == ""
    ensures var s := ParagraphText(paragraphs);
      exists i, j :: 0 <= i <= j <= |s| && IsBlank(s[..i]) && IsBlank(s[j..]) && r == s[i..j]
  {
    var s := ParagraphText(paragraphs);
    TrimSlice(s);
    if |paragraphs| == 0 then
      assert s == "";
      assert IsBlank(s[..0]) && IsBlank(s[0..]);
      ""
    else
      Trim(s)
  }

  /** Neither leading nor trailing whitespace, and not empty. */
  predicate Unpadded(s: string) {
    s != [] && !IsSpace(s[0]) && !IsSpace(s[|s| - 1])
  }

  lemma {:induction false} JoinUnpadded(ps: seq<string>)
    requires |ps| > 0 && forall i :: 0 <= i < |ps| ==> Unpadded(ps[i])
    ensures Unpadded(Join(ps, " "))
    ensures Join(ps, " ")[0] == ps[0][0]
  {
    if |ps| > 1 {
      JoinUnpadded(ps[1..]);
      var rest := Join(ps[1..], " ");
      assert Join(ps, " ") == ps[0] + " " + rest;
    }
  }

  /** Paragraphs that are already stripped and not empty come out exactly
      space-joined. */
  lemma ContentOfUnpadded(ps: seq<string>)
    requires |ps| > 0 && forall i :: 0 <= i < |ps| ==> Unpadded(ps[i])
    ensures Content(ps) == Join(ps, " ")
  {
    var j := Join(ps, " ");
    JoinUnpadded(ps);
    assert Unpadded(j);
    TrimUnpadded(j);
  }

  // ---------------------------------------------------------------- dates

  /** What `strptime` reads: a date and a time of day to the minute. */
  datatype Stamp = Stamp(year: nat, month: nat, day: nat, hour: nat, minute: nat)

  const MonthAbbrev: seq<string> :=
    ["Jan", "Feb", "Mar", "Apr", "May", "Jun", "Jul", "Aug", "Sep", "Oct", "Nov", "Dec"]

  const MonthLower: seq<string> :=
    ["jan", "feb", "mar", "apr", "may", "jun", "jul", "aug", "sep", "oct", "nov", "dec"]

  predicate IsLeap(year: nat) {
    year % 4 == 0 && (year % 100 != 0 || year % 400 == 0)
  }

  /** The length of a month of the Gregorian calendar. */
  function DaysIn(year: nat, month: nat): (d: nat)
    ensures 28 <= d <= 31
  {
    if month == 2 then (if IsLeap(year) then 29 else 28)
    else if month == 4 || month == 6 || month == 9 || month == 11 then 30
    else 31
  }

  /** A date `datetime` accepts, with a time of day. */
  predicate ValidStamp(st: Stamp) {
    && 1 <= st.year <= 9999 && 1 <= st.month <= 12 && 1 <= st.day <= DaysIn(st.year, st.month)
    && st.hour < 24 && st.minute < 60
  }

  /** `%b`: an English month abbreviation, in any case. */
  function MonthNumber(m: string): (r: Option<nat>)
    ensures r.Some? <==> ToLower(m) in MonthLower
    ensures r.Some? ==> 1 <= r.value <= 12 && MonthLower[r.value - 1] == ToLower(m)
  {
    var lower := ToLower(m);
    if lower == "jan" then Some(1)
    else if lower == "feb" then Some(2)
    else if lower == "mar" then Some(3)
    else if lower == "apr" then Some(4)
    else if lower == "may" then Some(5)
    else if lower == "jun" then Some(6)
    else if lower == "jul" then Some(7)
    else if lower == "aug" then Some(8)
    else if lower == "sep" then Some(9)
    else if lower == "oct" then Some(10)
    else if lower == "nov" then Some(11)
    else if lower == "dec" then Some(12)
    else None
  }

  /** The length of the run of digits `s` starts with. */
  function SpanDigits(s: string): (n: nat)
    ensures n <= |s| && AllDigits(s[..n]) && (n == |s| || !IsDigit(s[n]))
  {
    if |s| > 0 && IsDigit(s[0]) then
      var n := 1 + SpanDigits(s[1..]);
      assert s[..n] == [s[0]] + s[1..][..n - 1];
      n
    else 0
  }

  /** The length of the run of whitespace `s` starts with. */
  function SpanSpaces(s: string): (n: nat)
    ensures n <= |s| && IsBlank(s[..n]) && (n == |s| || !IsSpace(s[n]))
  {
    if |s| > 0 && IsSpace(s[0]) then
      var n := 1 + SpanSpaces(s[1..]);
      assert s[..n] == [s[0]] + s[1..][..n - 1];
      n
    else 0
  }

  /** `HH:MM` at the end: one or two digits, ':', one or two digits. */
  function ParseClock(st: Stamp, s: string): (r: Option<Stamp>)
    ensures r.Some? ==> ValidStamp(r.value)
  {
    var h := SpanDigits(s);
    if h == 0 || h > 2 || h == |s| || s[h] != ':' then None
    else
      var m := s[h + 1..];
      if |m| == 0 || |m| > 2 || !AllDigits(m) then None
      else
        var full := st.(hour := DigitsValue(s[..h]), minute := DigitsValue(m));
        if ValidStamp(full) then Some(full) else None
  }

  /** Whitespace, then the clock. */
  function ParseAfterYear(st: Stamp, s: string): (r: Option<Stamp>)
    ensures r.Some? ==> ValidStamp(r.value)
  {
    var w := SpanSpaces(s);
    if w == 0 then None else ParseClock(st, s[w..])
  }

  /** Whitespace, then a four-digit year. */
  function ParseAfterMonth(day: nat, month: nat, s: string): (r: Option<Stamp>)
    ensures r.Some? ==> ValidStamp(r.value)
  {
    var w := SpanSpaces(s);
    if w == 0 || |s| < w + 4 || !AllDigits(s[w..w + 4]) then None
    else ParseAfterYear(Stamp(DigitsValue(s[w..w + 4]), month, day, 0, 0), s[w + 4..])
  }

  /** Whitespace, then a three-letter month. */
  function ParseAfterDay(day: nat, s: string): (r: Option<Stamp>)
    ensures r.Some? ==> ValidStamp(r.value)
  {
    var w := SpanSpaces(s);
    if w == 0 || |s| < w + 3 then None
    else
      match MonthNumber(s[w..w + 3])
      case None => None
      case Some(month) => ParseAfterMonth(day, month, s[w + 3..])
  }

  /** The day: at most `maxDigits` digits. */
  function ParseFrom(s: string, maxDigits: nat): (r: Option<Stamp>)
    ensures r.Some? ==> ValidStamp(r.value)
  {
    var n := SpanDigits(s);
    if n == 0 || n > maxDigits then None else ParseAfterDay(DigitsValue(s[..n]), s[n..])
  }

  /** `datetime.strptime(s, "%d %b %Y %H:%M")`: each space of the format
      matches a run of whitespace, the day and hour and minute have one or
      two digits, the year four, and nothing may follow the minutes. A day
      may also be written as one space and one digit. A string that does not
      match, or names no real date, raises (None). */
  function ParseStamp(s: string): (r: Option<Stamp>)
    ensures r.Some? ==> ValidStamp(r.value)
  {
    if |s| > 0 && s[0] == ' ' then ParseFrom(s[1..], 1) else ParseFrom(s, 2)
  }

  /** `strftime("%Y-%m-%d %H:%M:%S")`; `strptime` read no seconds, so they
      are "00". The year is not padded, as the C library prints it. */
  function IsoText(st: Stamp): string
    requires st.month < 100 && st.day < 100 && st.hour < 100 && st.minute < 100
  {
    NatToString(st.year) + "-" + Pad2(st.month) + "-" + Pad2(st.day)
      + " " + Pad2(st.hour) + ":" + Pad2(st.minute) + ":00"
  }

  /** `info[info.find(":") + 1:]`: after the first ':', or all of it. */
  function TextAfterColon(info: string): (r: string)
    ensures ':' !in info ==> r == info
  {
    info[Find(info, ':') + 1..]
  }

  /** The stripped text after the first ':' split at "at"; exactly two parts
      are expected. */
  function InfoParts(info: string): seq<string> {
    SplitOn(Trim(TextAfterColon(info)), "at")
  }

  /** The publication date from the article-info text: "" for an empty text;
      otherwise the two "at"-separated parts, joined by a space and read by
      `strptime`, re-written. Any other number of parts, or a text
      `strptime` refuses, raises (None). */
  function PublishedAt(info: string): (r: Option<string>)
    ensures info == "" ==> r == Some("")
    ensures info != "" ==>
      (r.Some? <==> |InfoParts(info)| == 2 && ParseStamp(InfoParts(info)[0] + " " + InfoParts(info)[1]).Some?)
    ensures info != "" && r.Some? ==>
      && |InfoParts(info)| == 2
      && var st := ParseStamp(InfoParts(info)[0] + " " + InfoParts(info)[1]);
         st.Some? && r.value == IsoText(st.value)
  {
    if info == "" then Some("")
    else
      var parts := InfoParts(info);
      if |parts| != 2 then None
      else
        match ParseStamp(parts[0] + " " + parts[1])
        case None => None
        case Some(st) => Some(IsoText(st))
  }

  /** `get_data(soup)`: None where it raises. */
  function GetData(page: Page): (r: Option<NewsItem>)
    ensures r.Some? <==>
      && Title(page).Some? && page.paragraphs.Some?
      && page.infoParagraphs.Some? && |page.infoParagraphs.value| > 0
      && PublishedAt(page.infoParagraphs.value[0]).Some?
    ensures r.Some? ==>
      && r.value.title == Title(page).value
      && r.value.description == MetaText(page.description, NoDescription)
      && r.value.imageUrl == MetaText(page.ogImage, "")
      && r.value.source == MetaText(page.ogUrl, "")
      && r.value.content == Content(page.paragraphs.value)
      && r.value.publishedAt == PublishedAt(page.infoParagraphs.value[0]).value
  {
    if Title(page).None? || page.paragraphs.None? || page.infoParagraphs.None? || |page.infoParagraphs.value| == 0 then None
    else
      match PublishedAt(page.infoParagraphs.value[0])
      case None => None
      case Some(date) =>
        Some(NewsItem(
          Title(page).value,
          MetaText(page.description, NoDescription),
          Content(page.paragraphs.value),
          MetaText(page.ogImage, ""),
          MetaText(page.ogUrl, ""),
          date))
  }

  // ---------------------------------------------------------------- the date round trip

  /** The date as the site writes it, "DD Mon YYYY". */
  function DatePart(st: Stamp): string
    requires 1 <= st.month <= 12 && st.day < 100
  {
    Pad2(st.day) + " " + MonthAbbrev[st.month - 1] + " " + NatToString(st.year)
  }

  /** The time as the site writes it, "HH:MM". */
  function TimePart(st: Stamp): string
    requires st.hour < 100 && st.minute < 100
  {
    Pad2(st.hour) + ":" + Pad2(st.minute)
  }

  /** An article-info text: a prefix, ": ", the date, " at ", the time. */
  function InfoLine(prefix: string, st: Stamp): string
    requires ValidStamp(st)
  {
    prefix + ": " + DatePart(st) + " at " + TimePart(st)
  }

  lemma SpanDigitsOf(d: string, rest: string)
    requires AllDigits(d) && (rest == [] || !IsDigit(rest[0]))
    ensures SpanDigits(d + rest) == |d|
  {
    assert (d + rest)[..|d|] == d;
  }

  lemma SpanSpacesOf(w: string, rest: string)
    requires IsBlank(w) && (rest == [] || !IsSpace(rest[0]))
    ensures SpanSpaces(w + rest) == |w|
  {
    assert (w + rest)[..|w|] == w;
  }

  /** The clock stage reads "H:M" with one or two digits on each side, and
      accepts the stamp exactly when it is a valid one. */
  lemma ClockStep(st: Stamp, h: string, m: string)
    requires AllDigits(h) && 1 <= |h| <= 2 && AllDigits(m) && 1 <= |m| <= 2
    ensures var full := st.(hour := DigitsValue(h), minute := DigitsValue(m));
      ParseClock(st, h + ":" + m) == if ValidStamp(full) then Some(full) else None
  {
    var s := h + ":" + m;
    assert s == h + (":" + m);
    SpanDigitsOf(h, ":" + m);
    assert s[|h|] == ':' && s[..|h|] == h && s[|h| + 1..] == m;
  }

  /** The stage after the year skips a non-empty run of whitespace. */
  lemma AfterYearStep(st: Stamp, w: string, t: string)
    requires IsBlank(w) && w != [] && (t == [] || !IsSpace(t[0]))
    ensures ParseAfterYear(st, w + t) == ParseClock(st, t)
  {
    SpanSpacesOf(w, t);
    assert (w + t)[|w|..] == t;
  }

  /** The stage after the month skips whitespace and reads four digits. */
  lemma AfterMonthStep(day: nat, month: nat, w: string, y: string, rest: string)
    requires IsBlank(w) && w != [] && AllDigits(y) && |y| == 4
    ensures ParseAfterMonth(day, month, w + y + rest) == ParseAfterYear(Stamp(DigitsValue(y), month, day, 0, 0), rest)
  {
    var s := w + y + rest;
    assert s == w + (y + rest);
    assert !IsSpace((y + rest)[0]);
    SpanSpacesOf(w, y + rest);
    assert s[|w|..|w| + 4] == y && s[|w| + 4..] == rest;
  }

  /** The stage after the day skips whitespace and reads a month name. */
  lemma AfterDayStep(day: nat, w: string, m: string, rest: string)
    requires IsBlank(w) && w != [] && |m| == 3 && !IsSpace(m[0])
    ensures ParseAfterDay(day, w + m + rest)
         == if MonthNumber(m).Some? then ParseAfterMonth(day, MonthNumber(m).value, rest) else None
  {
    var s := w + m + rest;
    assert s == w + (m + rest);
    SpanSpacesOf(w, m + rest);
    assert s[|w|..|w| + 3] == m && s[|w| + 3..] == rest;
  }

  /** The first stage reads at most `maxDigits` digits of day. */
  lemma FromStep(d: string, rest: string, maxDigits: nat)
    requires AllDigits(d) && 1 <= |d| <= maxDigits && (rest == [] || !IsDigit(rest[0]))
    ensures ParseFrom(d + rest, maxDigits) == ParseAfterDay(DigitsValue(d), rest)
  {
    SpanDigitsOf(d, rest);
    assert (d + rest)[..|d|] == d && (d + rest)[|d|..] == rest;
  }

  lemma ToLowerMonth(k: nat)
    requires k < 12
    ensures ToLower(MonthAbbrev[k]) == MonthLower[k]
  {
    var a := MonthAbbrev[k];
    var l := ToLower(a);
    assert |l| == 3;
    assert l[0] == LowerChar(a[0]) && l[1] == LowerChar(a[1]) && l[2] == LowerChar(a[2]);
  }

  /** `%b` reads each English abbreviation as its month. */
  lemma MonthNumberOfAbbrev(month: nat)
    requires 1 <= month <= 12
    ensures MonthNumber(MonthAbbrev[month - 1]) == Some(month)
  {
    ToLowerMonth(month - 1);
    if month == 1 {
    } else if month == 2 {
    } else if month == 3 {
    } else if month == 4 {
    } else if month == 5 {
    } else if month == 6 {
    } else if month == 7 {
    } else if month == 8 {
    } else if month == 9 {
    } else if month == 10 {
    } else if month == 11 {
    } else {
    }
  }

  /** A year from 1000 to 9999 is written with four digits. */
  lemma NatToStringLength(n: nat)
    requires 1000 <= n <= 9999
    ensures |NatToString(n)| == 4
  {
    assert NatToString(n) == NatToString(n / 10) + [DigitChar(n % 10)];
    assert NatToString(n / 10) == NatToString(n / 100) + [DigitChar(n / 10 % 10)];
    assert NatToString(n / 100) == NatToString(n / 1000) + [DigitChar(n / 100 % 10)];
  }

  /** The time as the site writes it reads back as the stamp's clock. */
  lemma ParseClockOf(st: Stamp)
    requires ValidStamp(st)
    ensures ParseClock(Stamp(st.year, st.month, st.day, 0, 0), TimePart(st)) == Some(st)
  {
    ClockStep(Stamp(st.year, st.month, st.day, 0, 0), Pad2(st.hour), Pad2(st.minute));
    DigitsValueOfPad2(st.hour);
    DigitsValueOfPad2(st.minute);
  }

  /** From the year on: " YYYY", whitespace, "HH:MM". */
  lemma ParseAfterMonthOf(st: Stamp, w: string)
    requires ValidStamp(st) && st.year >= 1000 && IsBlank(w) && w != []
    ensures ParseAfterMonth(st.day, st.month, " " + NatToString(st.year) + (w + TimePart(st))) == Some(st)
  {
    var y := NatToString(st.year);
    DigitsValueOfNatToString(st.year);
    NatToStringLength(st.year);
    AfterMonthStep(st.day, st.month, " ", y, w + TimePart(st));
    assert !IsSpace(TimePart(st)[0]);
    AfterYearStep(Stamp(st.year, st.month, st.day, 0, 0), w, TimePart(st));
    ParseClockOf(st);
  }

  /** From the month on: " Mon YYYY", whitespace, "HH:MM". */
  lemma ParseAfterDayOf(st: Stamp, w: string)
    requires ValidStamp(st) && st.year >= 1000 && IsBlank(w) && w != []
    ensures ParseAfterDay(st.day, " " + MonthAbbrev[st.month - 1] + (" " + NatToString(st.year) + (w + TimePart(st))))
         == Some(st)
  {
    var m := MonthAbbrev[st.month - 1];
    assert |m| == 3 && !IsSpace(m[0]);
    AfterDayStep(st.day, " ", m, " " + NatToString(st.year) + (w + TimePart(st)));
    MonthNumberOfAbbrev(st.month);
    ParseAfterMonthOf(st, w);
  }

  /** "DD Mon YYYY", whitespace, "HH:MM" reads back as the date it shows. */
  lemma ParseStampOf(st: Stamp, w: string)
    requires ValidStamp(st) && st.year >= 1000 && IsBlank(w) && w != []
    ensures ParseStamp(DatePart(st) + w + TimePart(st)) == Some(st)
  {
    var d := Pad2(st.day);
    var rest := " " + MonthAbbrev[st.month - 1] + (" " + NatToString(st.year) + (w + TimePart(st)));
    var s := DatePart(st) + w + TimePart(st);
    assert s == d + rest;
    assert s[0] == d[0] && IsDigit(d[0]);
    FromStep(d, rest, 2);
    DigitsValueOfPad2(st.day);
    ParseAfterDayOf(st, w);
  }

  /** No "at" starts inside `s`. */
  predicate NoAt(s: string) {
    forall i :: 0 <= i < |s| - 1 && s[i] == 'a' ==> s[i + 1] != 't'
  }

  lemma NoAtAppend(x: string, y: string)
    requires NoAt(x) && NoAt(y) && (x == [] || x[|x| - 1] != 'a')
    ensures NoAt(x + y)
  {
    var s := x + y;
    forall i | 0 <= i < |s| - 1 && s[i] == 'a' ensures s[i + 1] != 't' {
      if i >= |x| {
        assert s[i] == y[i - |x|] && s[i + 1] == y[i + 1 - |x|];
      } else if i < |x| - 1 {
        assert s[i] == x[i] && s[i + 1] == x[i + 1];
      }
    }
  }

  lemma NoAtOfNoA(s: string)
    requires 'a' !in s
    ensures NoAt(s)
  {

  }

  lemma DigitsHaveNoA(s: string)
    requires AllDigits(s)
    ensures 'a' !in s
  {

  }

  lemma MonthNoAt(k: nat)
    requires k < 12
    ensures NoAt(MonthAbbrev[k]) && MonthAbbrev[k][|MonthAbbrev[k]| - 1] != 'a'
  {
    var m := MonthAbbrev[k];
    assert |m| == 3 && m[0] != 'a' && m[2] != 'a';
    assert m[1] == 'a' ==> m[2] != 't';
  }

  /** The date with the space before "at" holds no "at". */
  lemma DatePartNoAt(st: Stamp)
    requires ValidStamp(st)
    ensures NoAt(DatePart(st) + " ")
  {
    var d := Pad2(st.day);
    var m := MonthAbbrev[st.month - 1];
    var y := NatToString(st.year);
    DigitsHaveNoA(d);
    DigitsHaveNoA(y);
    assert 'a' !in d + " " && 'a' !in " " + y + " ";
    NoAtOfNoA(d + " ");
    NoAtOfNoA(" " + y + " ");
    MonthNoAt(st.month - 1);
    NoAtAppend(d + " ", m);
    NoAtAppend(d + " " + m, " " + y + " ");
    assert DatePart(st) + " " == d + " " + m + (" " + y + " ");
  }

  lemma NoAtNoOccurrence(a: string, b: string)
    requires NoAt(a) && (a == [] || a[|a| - 1] != 'a')
    ensures forall i :: 0 <= i < |a| ==> !OccursAt(a + "at" + b, "at", i)
  {
    var s := a + "at" + b;
    forall i | 0 <= i < |a| ensures !OccursAt(s, "at", i) {
      assert s[i] == a[i];
      if i < |a| - 1 {
        assert s[i + 1] == a[i + 1];
      } else {
        assert s[i + 1] == 'a';
      }
    }
  }

  /** Text without "at" around a single "at" splits into the two sides. */
  lemma SplitAtOnce(a: string, b: string)
    requires NoAt(a) && (a == [] || a[|a| - 1] != 'a') && !Contains(b, "at")
    ensures SplitOn(a + "at" + b, "at") == [a, b]
  {
    NoAtNoOccurrence(a, b);
    SplitOnOnce(a, "at", b);
  }

  lemma NoAInTime(st: Stamp)
    requires ValidStamp(st)
    ensures !Contains(" " + TimePart(st), "at")
  {
    var t := " " + TimePart(st);
    DigitsHaveNoA(Pad2(st.hour));
    DigitsHaveNoA(Pad2(st.minute));
    assert t == " " + Pad2(st.hour) + ":" + Pad2(st.minute);
    assert 'a' !in t;
    forall i | 0 <= i <= |t| - 2
      ensures !OccursAt(t, "at", i)
    {
      assert t[i..i + 2][0] == t[i];
    }
  }

  /** After a colon-free prefix and ": ", the stripped text is what
      follows, when that neither starts nor ends with whitespace. */
  lemma StrippedAfterColon(prefix: string, body: string)
    requires ':' !in prefix && Unpadded(body)
    ensures Trim(TextAfterColon(prefix + ": " + body)) == body
  {
    var info := prefix + ": " + body;
    assert info == prefix + [':'] + (" " + body);
    FindAfter(prefix, ':', " " + body);
    assert TextAfterColon(info) == " " + body;
    TrimPadded(" ", body, "");
    assert " " + body + "" == " " + body;
    TrimUnpadded(body);
  }

  /** The date and the time as the site writes them start and end with a
      digit. */
  lemma PartsUnpadded(st: Stamp)
    requires ValidStamp(st)
    ensures Unpadded(DatePart(st)) && Unpadded(TimePart(st))
  {
    var d := DatePart(st);
    var y := NatToString(st.year);
    assert d[0] == Pad2(st.day)[0] && d[|d| - 1] == y[|y| - 1];
    var t := TimePart(st);
    assert t[0] == Pad2(st.hour)[0] && t[|t| - 1] == Pad2(st.minute)[1];
  }

  /** An info text in the site's format splits into the date (with its
      trailing space) and the time (with its leading one). */
  lemma InfoLineParts(prefix: string, st: Stamp)
    requires ValidStamp(st) && ':' !in prefix
    ensures InfoParts(InfoLine(prefix, st)) == [DatePart(st) + " ", " " + TimePart(st)]
  {
    var a := DatePart(st) + " ";
    var b := " " + TimePart(st);
    var body := a + "at" + b;
    assert InfoLine(prefix, st) == prefix + ": " + body;
    assert Unpadded(body) by {
      assert body[0] == Pad2(st.day)[0];
      assert body[|body| - 1] == Pad2(st.minute)[1];
    }
    StrippedAfterColon(prefix, body);
    DatePartNoAt(st);
    NoAInTime(st);
    SplitAtOnce(a, b);
  }

  /** The date of an info text in the site's format is re-written as
      "YYYY-MM-DD HH:MM:00". */
  lemma PublishedAtOfInfoLine(prefix: string, st: Stamp)
    requires ValidStamp(st) && st.year >= 1000 && ':' !in prefix
    ensures PublishedAt(InfoLine(prefix, st)) == Some(IsoText(st))
  {
    assert IsBlank("   ");
    ParseStampOf(st, "   ");
    SpacedJoin(DatePart(st), TimePart(st));
    InfoLineParts(prefix, st);
  }

  /** The two parts joined by a space: the date, three spaces, the time. */
  lemma SpacedJoin(d: string, t: string)
    ensures (d + " ") + " " + (" " + t) == d + "   " + t
  {
  }

  // ---------------------------------------------------------------- cleaning

  const Nbsp: char := '\U{00A0}'

  /** `.replace('\xa0', ' ')`. */
  function ReplaceNbsp(s: string): (r: string)
    ensures |r| == |s| && Nbsp !in r
    ensures forall i :: 0 <= i < |s| ==> r[i] == if s[i] == Nbsp then ' ' else s[i]
  {
    seq(|s|, i requires 0 <= i < |s| => if s[i] == Nbsp then ' ' else s[i])
  }

  /** `clean_text`: `plain` stands for the HTML parsing and unescaping that
      yield the text; non-breaking spaces become spaces, then the result is
      stripped. */
  function CleanText(text: string, plain: string -> string): (r: string)
    ensures Nbsp !in r
    ensures r == [] || (!IsSpace(r[0]) && !IsSpace(r[|r| - 1]))
    ensures var s := ReplaceNbsp(plain(text));
      exists i, j :: 0 <= i <= j <= |s| && IsBlank(s[..i]) && IsBlank(s[j..]) && r == s[i..j]
  {
    var s := ReplaceNbsp(plain(text));
    var r := Trim(s);
    assert Nbsp !in r by {
      TrimKeepsChars(s);
    }
    TrimSlice(s);
    r
  }

  /** Trimming only removes characters. */
  lemma TrimKeepsChars(s: string)
    ensures forall c :: c in Trim(s) ==> c in s
  {
    var t := TrimStart(s);
    assert t == s[|s| - |t|..];
    var r := TrimEnd(t);
    assert r == t[..|r|];
    assert Trim(s) == r;
  }

  /** The lambda's cleaning of one item: title, description and content. */
  function CleanItem(item: NewsItem, plain: string -> string): (r: NewsItem)
    ensures r.imageUrl == item.imageUrl && r.source == item.source && r.publishedAt == item.publishedAt
    ensures Nbsp !in r.title && Nbsp !in r.description && Nbsp !in r.content
    ensures r.title == CleanText(item.title, plain) && r.description == CleanText(item.description, plain)
    ensures r.content == CleanText(item.content, plain)
  {
    item.(title := CleanText(item.title, plain),
          description := CleanText(item.description, plain),
          content := CleanText(item.content, plain))
  }

  // ---------------------------------------------------------------- links

  /** A `<figure>` of the listing: no `<a>`, or one with its `href`. */
  datatype Anchor = NoAnchor | Anchor(href: Option<string>)

  predicate HasHref(a: Anchor) {
    a.Anchor? && a.href.Some? && a.href.value != ""
  }

  /** The stripped `href` of every figure whose link has a non-empty one,
      in order. */
  function Hrefs(figures: seq<Anchor>): seq<string> {
    if |figures| == 0 then []
    else
      var last := figures[|figures| - 1];
      Hrefs(figures[..|figures| - 1]) + if HasHref(last) then [Trim(last.href.value)] else []
  }

  /** The listing loop: exactly the figures with a non-empty `href`
      contribute, each its stripped `href`. */
  lemma {:induction false} HrefsSpec(figures: seq<Anchor>)
    ensures forall i :: 0 <= i < |figures| && HasHref(figures[i]) ==> Trim(figures[i].href.value) in Hrefs(figures)
    ensures forall l :: l in Hrefs(figures) ==>
      exists i :: 0 <= i < |figures| && HasHref(figures[i]) && l == Trim(figures[i].href.value)
    ensures |Hrefs(figures)| <= |figures|
  {
    if |figures| > 0 {
      var init := figures[..|figures| - 1];
      HrefsSpec(init);
      forall l | l in Hrefs(figures)
        ensures exists i :: 0 <= i < |figures| && HasHref(figures[i]) && l == Trim(figures[i].href.value)
      {
        if l in Hrefs(init) {
          var i :| 0 <= i < |init| && HasHref(init[i]) && l == Trim(init[i].href.value);
          assert figures[i] == init[i];
        } else {
          assert HasHref(figures[|figures| - 1]);
        }
      }
      forall i | 0 <= i < |figures| && HasHref(figures[i])
        ensures Trim(figures[i].href.value) in Hrefs(figures)
      {
        if i < |init| {
          assert figures[i] == init[i];
        }
      }
    }
  }

  /** `for figure in figures`: collects the links of the listing. */
  method CollectLinks(figures: seq<Anchor>) returns (links: seq<string>)
    ensures links == Hrefs(figures)
  {
    links := [];
    var i := 0;
    while i < |figures|
      invariant 0 <= i <= |figures|
      invariant links == Hrefs(figures[..i])
    {
      var figure := figures[i];
      assert figures[..i + 1][..i] == figures[..i];
      if figure.Anchor? && figure.href.Some? && figure.href.value != "" {
        links := links + [Trim(figure.href.value)];
      }
      i := i + 1;
    }
    assert figures[..i] == figures;
  }

  /** Pairwise different elements. */
  predicate Distinct(s: seq<string>) {
    forall i, j :: 0 <= i < j < |s| ==> s[i] != s[j]
  }

  /** What `list(set(links))` gives, whatever order the set's string
      hashes put its elements in: each link exactly once. */
  ghost predicate ListsSet(listSet: seq<string> -> seq<string>) {
    forall s :: Distinct(listSet(s)) && (forall x :: x in listSet(s) <==> x in s)
  }

  /** One order `list(set(links))` may produce: the first appearances, in
      order. */
  function Dedup(s: seq<string>): (r: seq<string>)
    ensures forall x :: x in r <==> x in s
    ensures Distinct(r)
    ensures |r| <= |s|
  {
    if |s| == 0 then []
    else
      var r := Dedup(s[..|s| - 1]);
      var x := s[|s| - 1];
      assert forall y :: y in s <==> y in s[..|s| - 1] || y == x by {
        assert s == s[..|s| - 1] + [x];
      }
      if x in r then r else r + [x]
  }

  /** First appearances are one of the orders a set may list. */
  lemma DedupListsSet()
    ensures ListsSet(Dedup)
  {
  }

  // ---------------------------------------------------------------- the handler

  /** The link's page was fetched and the page reader read it. */
  predicate Scrapes<T>(link: string, fetch: string -> Option<Page>, read: Page -> Option<T>) {
    fetch(WebsiteUrl + link).Some? && read(fetch(WebsiteUrl + link).value).Some?
  }

  /** `links[k]` is the first link that is not scraped. */
  predicate FirstFailure<T>(links: seq<string>, fetch: string -> Option<Page>, read: Page -> Option<T>, k: int) {
    && 0 <= k < |links| && !Scrapes(links[k], fetch, read)
    && forall j :: 0 <= j < k ==> Scrapes(links[j], fetch, read)
  }

  /** The fetch loop: the items of the links in order, or the reason of the
      first failure (the failed-page message, or None for an exception of
      the page reader). `read` is the page reader; the handler passes
      `GetData`. */
  function FetchAll<T>(links: seq<string>, fetch: string -> Option<Page>, read: Page -> Option<T>): (r: Result<seq<T>, Option<string>>)
    ensures r.Ok? <==> forall i :: 0 <= i < |links| ==> Scrapes(links[i], fetch, read)
    ensures r.Ok? ==> |r.value| == |links|
    ensures r.Ok? ==> forall i :: 0 <= i < |links| ==> Some(r.value[i]) == read(fetch(WebsiteUrl + links[i]).value)
  {
    if |links| == 0 then Ok([])
    else
      var init := links[..|links| - 1];
      var link := links[|links| - 1];
      var prev := FetchAll(init, fetch, read);
      assert forall i :: 0 <= i < |init| ==> init[i] == links[i];
      if prev.Err? then prev
      else
        match fetch(WebsiteUrl + link)
        case None => Err(Some(PageFailedMessage))
        case Some(page) =>
          match read(page)
          case None => Err(None)
          case Some(item) => Ok(prev.value + [item])
  }

  /** A failed loop failed at the first link that is not scraped: with the
      failed-page message when its fetch failed, and None when the page
      reader raised. */
  lemma {:induction false} FetchAllFailure<T>(links: seq<string>, fetch: string -> Option<Page>, read: Page -> Option<T>)
    requires FetchAll(links, fetch, read).Err?
    ensures exists k :: && FirstFailure(links, fetch, read, k)
                        && FetchAll(links, fetch, read).error == if fetch(WebsiteUrl + links[k]).None? then Some(PageFailedMessage) else None
  {
    var init := links[..|links| - 1];
    assert forall i :: 0 <= i < |init| ==> init[i] == links[i];
    if FetchAll(init, fetch, read).Err? {
      FetchAllFailure(init, fetch, read);
      var k :| FirstFailure(init, fetch, read, k)
             && FetchAll(init, fetch, read).error == if fetch(WebsiteUrl + init[k]).None? then Some(PageFailedMessage) else None;
      assert FirstFailure(links, fetch, read, k);
    } else {
      assert FirstFailure(links, fetch, read, |links| - 1);
    }
  }

  /** A failure among the first links decides the whole loop. */
  lemma {:induction false} FetchAllStops<T>(links: seq<string>, fetch: string -> Option<Page>, read: Page -> Option<T>, n: nat)
    requires n <= |links| && FetchAll(links[..n], fetch, read).Err?
    ensures FetchAll(links, fetch, read) == FetchAll(links[..n], fetch, read)
    decreases |links| - n
  {
    if n < |links| {
      assert links[..n + 1][..n] == links[..n];
      FetchAllStops(links, fetch, read, n + 1);
    } else {
      assert links[..n] == links;
    }
  }

  /** The first unreadable link is `links[i]` when all before it were read. */
  lemma FailureAt<T>(links: seq<string>, fetch: string -> Option<Page>, read: Page -> Option<T>, i: nat)
    requires i < |links| && FetchAll(links[..i], fetch, read).Ok? && !Scrapes(links[i], fetch, read)
    ensures FirstFailure(links, fetch, read, i)
  {
    assert forall j :: 0 <= j < i ==> links[..i][j] == links[j];
  }

  /** `for link in links`: fetches and reads each page in turn, appending
      its item, and stops at the first failure. `error` is None when every
      page was read, and otherwise the reason of the failure; `news` holds
      the items appended before it. */
  method FetchPages<T>(links: seq<string>, fetch: string -> Option<Page>, read: Page -> Option<T>)
    returns (news: seq<T>, error: Option<Option<string>>)
    ensures error.None? ==> FetchAll(links, fetch, read) == Ok(news)
    ensures error.Some? ==> FetchAll(links, fetch, read) == Err(error.value)
    ensures error.Some? ==> exists k :: FirstFailure(links, fetch, read, k) && FetchAll(links[..k], fetch, read) == Ok(news)
  {
    news := [];
    var i := 0;
    while i < |links|
      invariant 0 <= i <= |links|
      invariant FetchAll(links[..i], fetch, read) == Ok(news)
    {
      assert links[..i + 1][..i] == links[..i];
      var page := fetch(WebsiteUrl + links[i]);
      if page.None? || read(page.value).None? {
        FailureAt(links, fetch, read, i);
        FetchAllStops(links, fetch, read, i + 1);
        return news, Some(if page.None? then Some(PageFailedMessage) else None);
      }
      news := news + [read(page.value).value];
      i := i + 1;
    }
    assert links[..i] == links;
    error := None;
  }

  /** The object key: "scrapped_news/<date>/news.json". */
  function NewsKey(date: string): string {
    ScrapedFolder + "/" + date + "/news.json"
  }

  lemma NewsKeyParts(date: string)
    requires '/' !in date
    ensures Split(NewsKey(date), '/') == [ScrapedFolder, date, "news.json"]
  {
    assert NewsKey(date) == ScrapedFolder + ['/'] + date + ['/'] + "news.json";
    SplitThree(ScrapedFolder, date, "news.json", '/');
  }

  /** What a run ends in: the cleaned items stored under the key (the
      handler then returns None), or status 500 with the message of the
      exception (None where its text is not modelled). */
  datatype Outcome = Stored(objectKey: string, items: seq<NewsItem>) | ServerError(message: Option<string>)

  function CleanAll(items: seq<NewsItem>, plain: string -> string): (r: seq<NewsItem>)
    ensures |r| == |items| && forall i :: 0 <= i < |items| ==> r[i] == CleanItem(items[i], plain)
  {
    seq(|items|, i requires 0 <= i < |items| => CleanItem(items[i], plain))
  }

  /** `for item in news`: cleans the title, description and content of each
      item in place. */
  method CleanNews(items: seq<NewsItem>, plain: string -> string) returns (news: seq<NewsItem>)
    ensures news == CleanAll(items, plain)
  {
    news := items;
    var j := 0;
    while j < |news|
      invariant 0 <= j <= |news| && |news| == |items|
      invariant forall k :: 0 <= k < j ==> news[k] == CleanItem(items[k], plain)
      invariant forall k :: j <= k < |news| ==> news[k] == items[k]
    {
      news := news[j := CleanItem(news[j], plain)];
      j := j + 1;
    }
  }

  /** `lambda_handler`. `listing` is the "most recent" page: None when it
      could not be fetched, `Some(None)` when it has no "page--link" div,
      otherwise that div's figures. `fetch` answers a URL with the page, or
      None when the request failed; `plain` is the text extraction of
      `clean_text`; `date` is today as "%Y-%m-%d"; `stored` says whether
      the upload succeeded; `listSet` is `list(set(..))`, whose order is
      the set's hash order. */
  method LambdaHandler(listing: Option<Option<seq<Anchor>>>, fetch: string -> Option<Page>,
                       plain: string -> string, date: string, stored: bool,
                       listSet: seq<string> -> seq<string>)
    returns (outcome: Outcome)
    requires ListsSet(listSet)
    ensures listing.None? ==> outcome == ServerError(Some(LinksFailedMessage))
    ensures listing == Some(None) ==> outcome == ServerError(None)
    ensures listing.Some? && listing.value.Some? ==>
      var fetched := FetchAll(listSet(Hrefs(listing.value.value)), fetch, GetData);
      && (fetched.Err? ==> outcome == ServerError(fetched.error))
      && (fetched.Ok? && !stored ==> outcome == ServerError(None))
      && (fetched.Ok? && stored ==> outcome == Stored(NewsKey(date), CleanAll(fetched.value, plain)))
  {
    if listing.None? {
      return ServerError(Some(LinksFailedMessage));
    }
    if listing.value.None? {
      return ServerError(None);
    }
    var links := CollectLinks(listing.value.value);
    links := listSet(links);
    var fetched, error := FetchPages(links, fetch, GetData);
    if error.Some? {
      return ServerError(error.value);
    }
    var news := CleanNews(fetched, plain);
    if !stored {
      return ServerError(None);
    }
    outcome := Stored(NewsKey(date), news);
  }
}
