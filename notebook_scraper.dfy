/** The notebook version of the Bangkok Post scraper
    (notebooks/latestNewsScrapper.py): the same page fields as the lambda,
    but the publication date and time are kept as the two stripped texts
    around "at", nothing is cleaned or stored, and the script's outcome is
    what it prints. Page parsing and the HTTP client are parameters, as in
    `NewsScraper`. */
module NotebookScraper {
  import opened Wrappers
  import opened Strings
  import opened Seqs
  import NewsScraper

  /** The dictionary the notebook's `get_data` returns. */
  datatype NotebookItem = NotebookItem(
    title: string,
    description: string,
    content: string,
    image: string,
    siteUrl: string,
    publishDate: string,
    publishTime: string)

  /** A string `strip` leaves as it is: empty, or with no whitespace at
      either end. */
  predicate Stripped(s: string) {
    s == [] || (!IsSpace(s[0]) && !IsSpace(s[|s| - 1]))
  }

  /** `publish_date, publish_time = info.split("at")`, each stripped: both
      "" for an empty text; otherwise the text after the first ':' must
      split into exactly two parts, or the unpacking raises (None). */
  function DateAndTime(info: string): (r: Option<(string, string)>)
    ensures info == "" ==> r == Some(("", ""))
    ensures info != "" ==> (r.Some? <==> |NewsScraper.InfoParts(info)| == 2)
    ensures r.Some? ==> Stripped(r.value.0) && Stripped(r.value.1)
  {
    if info == "" then Some(("", ""))
    else
      var parts := NewsScraper.InfoParts(info);
      if |parts| != 2 then None else Some((Trim(parts[0]), Trim(parts[1])))
  }

  /** `get_data(soup)`: None where it raises. */
  function GetData(page: NewsScraper.Page): (r: Option<NotebookItem>)
    ensures r.Some? <==>
      && NewsScraper.Title(page).Some? && page.paragraphs.Some?
      && page.infoParagraphs.Some? && |page.infoParagraphs.value| > 0
      && DateAndTime(page.infoParagraphs.value[0]).Some?
    ensures r.Some? ==>
      && r.value.title == NewsScraper.Title(page).value
      && r.value.description == NewsScraper.MetaText(page.description, NewsScraper.NoDescription)
      && r.value.image == NewsScraper.MetaText(page.ogImage, "")
      && r.value.siteUrl == NewsScraper.MetaText(page.ogUrl, "")
      && r.value.content == NewsScraper.Content(page.paragraphs.value)
      && (r.value.publishDate, r.value.publishTime) == DateAndTime(page.infoParagraphs.value[0]).value
  {
    var title := NewsScraper.Title(page);
    if title.None? || page.paragraphs.None? || page.infoParagraphs.None? || |page.infoParagraphs.value| == 0 then None
    else
      match DateAndTime(page.infoParagraphs.value[0])
      case None => None
      case Some((date, time)) =>
        Some(NotebookItem(
          title.value,
          NewsScraper.MetaText(page.description, NewsScraper.NoDescription),
          NewsScraper.Content(page.paragraphs.value),
          NewsScraper.MetaText(page.ogImage, ""),
          NewsScraper.MetaText(page.ogUrl, ""),
          date,
          time))
  }

  /** An info text in the site's format gives back the date and the time it
      shows. */
  lemma DateAndTimeOfInfoLine(prefix: string, st: NewsScraper.Stamp)
    requires NewsScraper.ValidStamp(st) && ':' !in prefix
    ensures DateAndTime(NewsScraper.InfoLine(prefix, st)) == Some((NewsScraper.DatePart(st), NewsScraper.TimePart(st)))
  {
    NewsScraper.PartsUnpadded(st);
    TrimSpaceAfter(NewsScraper.DatePart(st));
    TrimSpaceBefore(NewsScraper.TimePart(st));
    NewsScraper.InfoLineParts(prefix, st);
  }

  /** Wherever the lambda reads a page, the notebook reads it too, with the
      same title, description, content, image and address. */
  lemma ReadsWhereLambdaReads(page: NewsScraper.Page)
    requires NewsScraper.GetData(page).Some?
    ensures GetData(page).Some?
    ensures var item := NewsScraper.GetData(page).value;
      && GetData(page).value.title == item.title && GetData(page).value.description == item.description
      && GetData(page).value.content == item.content && GetData(page).value.image == item.imageUrl
      && GetData(page).value.siteUrl == item.source
  {
  }

  /** What the script ends in. `Finished`: every page was read and the list
      is printed. `Aborted`: an exception (its text, None where it is not
      modelled) was printed, then the items read so far. `NameError`: the
      listing failed before `news` was bound, so after the exception is
      printed, printing `news` in the `finally` block raises. */
  datatype Outcome =
    | Finished(news: seq<NotebookItem>)
    | Aborted(message: Option<string>, news: seq<NotebookItem>)
    | NameError(message: Option<string>)

  /** The `__main__` block. `listing` is the "most recent" page: None when
      it could not be fetched, `Some(None)` when it has no "page--link"
      div, otherwise that div's figures; `fetch` answers a URL with the
      page, or None when the request failed; `listSet` is
      `list(set(..))`, whose order is the set's hash order. */
  method RunScript(listing: Option<Option<seq<NewsScraper.Anchor>>>, fetch: string -> Option<NewsScraper.Page>,
                   listSet: seq<string> -> seq<string>)
    returns (outcome: Outcome)
    requires NewsScraper.ListsSet(listSet)
    ensures listing.None? ==> outcome == NameError(Some(NewsScraper.LinksFailedMessage))
    ensures listing == Some(None) ==> outcome == NameError(None)
    ensures listing.Some? && listing.value.Some? ==>
      var links := listSet(NewsScraper.Hrefs(listing.value.value));
      var r := NewsScraper.FetchAll(links, fetch, GetData);
      && (r.Ok? ==> outcome == Finished(r.value))
      && (r.Err? ==> && outcome.Aborted? && outcome.message == r.error
                     && exists k :: NewsScraper.FirstFailure(links, fetch, GetData, k)
                                 && NewsScraper.FetchAll(links[..k], fetch, GetData) == Ok(outcome.news))
  {
    if listing.None? {
      return NameError(Some(NewsScraper.LinksFailedMessage));
    }
    if listing.value.None? {
      return NameError(None);
    }
    var links := NewsScraper.CollectLinks(listing.value.value);
    links := listSet(links);
    var news, error := NewsScraper.FetchPages(links, fetch, GetData);
    if error.Some? {
      return Aborted(error.value, news);
    }
    outcome := Finished(news);
  }
}
