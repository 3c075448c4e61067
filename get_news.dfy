/** The news collector (mlOps/news-nuggets/lambda/get_news.py): for each
    of the two news APIs it projects the response's articles to records and
    saves them under a dated key. The API calls, the clock and the bucket
    are parameters; a raised exception is an outcome. */
module GetNews {
  import opened Wrappers
  import opened Strings
  import opened JsonValue

  const NewsOrg: string := "NEWS_ORG"
  const NewsData: string := "NEWS_DATA"
  /** The keys of `get_api_dictionary`'s dictionaries, in their order. */
  const ApiKeys: seq<string> := [NewsOrg, NewsData]

  /** The fields kept from an article. */
  datatype NewsRecord = NewsRecord(title: Json, description: Json, url: Json, publishedAt: Json, source: Json)

  /** One `s3.put_object`: the object key and the records written. */
  datatype Save = Save(objectKey: string, records: seq<NewsRecord>)

  /** A NEWS_ORG article's record; a missing field raises (None). */
  function ProjectOrg(article: Json): (r: Option<NewsRecord>)
    ensures r.Some? <==> && article.JObj?
                         && (forall k :: k in ["title", "description", "url", "publishedAt", "source"] ==> k in article.fields)
                         && article.fields["source"].JObj? && "name" in article.fields["source"].fields
    ensures r.Some? ==> r.value == NewsRecord(article.fields["title"], article.fields["description"], article.fields["url"],
                                              article.fields["publishedAt"], article.fields["source"].fields["name"])
  {
    var title := Index(article, "title");
    var description := Index(article, "description");
    var url := Index(article, "url");
    var publishedAt := Index(article, "publishedAt");
    var source := Index(article, "source");
    if title.None? || description.None? || url.None? || publishedAt.None? || source.None? then None
    else
      var name := Index(source.value, "name");
      if name.None? then None
      else Some(NewsRecord(title.value, description.value, url.value, publishedAt.value, name.value))
  }

  /** A NEWS_DATA article's record: `link`, `pubDate` and `source_id`
      become url, publishedAt and source; a missing field raises (None). */
  function ProjectData(article: Json): (r: Option<NewsRecord>)
    ensures r.Some? <==> article.JObj? && forall k :: k in ["title", "description", "link", "pubDate", "source_id"] ==> k in article.fields
    ensures r.Some? ==> r.value == NewsRecord(article.fields["title"], article.fields["description"], article.fields["link"],
                                              article.fields["pubDate"], article.fields["source_id"])
  {
    var title := Index(article, "title");
    var description := Index(article, "description");
    var link := Index(article, "link");
    var pubDate := Index(article, "pubDate");
    var sourceId := Index(article, "source_id");
    if title.None? || description.None? || link.None? || pubDate.None? || sourceId.None? then None
    else Some(NewsRecord(title.value, description.value, link.value, pubDate.value, sourceId.value))
  }

  /** The projection an API key uses, and the response field its articles
      are under. */
  function Project(key: string, article: Json): Option<NewsRecord>
    requires key == NewsOrg || key == NewsData
  {
    if key == NewsOrg then ProjectOrg(article) else ProjectData(article)
  }

  function ArticlesField(key: string): string
    requires key == NewsOrg || key == NewsData
  {
    if key == NewsOrg then "articles" else "results"
  }

  /** Every article projects without raising. */
  ghost predicate AllProject(key: string, articles: seq<Json>)
    requires key == NewsOrg || key == NewsData
  {
    forall i :: 0 <= i < |articles| ==> Project(key, articles[i]).Some?
  }

  /** What `get_final_result` saves for a known key: the last article's
      record alone, or None where it raises. */
  ghost function FinalRecords(result: Json, key: string): Option<seq<NewsRecord>>
    requires key == NewsOrg || key == NewsData
  {
    var articles := Index(result, ArticlesField(key));
    if articles.Some? && articles.value.JArr? && |articles.value.items| > 0 && AllProject(key, articles.value.items)
    then Some([Project(key, articles.value.items[|articles.value.items| - 1]).value])
    else None
  }

  /** `get_final_result(result, key)`. The loop rebinds the record for each
      article, but the append comes after it: for a known key the result is
      the last article's record alone, and an empty article list raises
      (the record was never bound); so does any article missing a field,
      and anything but a list where the articles should be. An unknown key
      gives the empty list. */
  method GetFinalResult(result: Json, key: string) returns (r: Option<seq<NewsRecord>>)
    ensures key != NewsOrg && key != NewsData ==> r == Some([])
    ensures key == NewsOrg || key == NewsData ==>
      var articles := Index(result, ArticlesField(key));
      && (r.Some? <==> articles.Some? && articles.value.JArr? && |articles.value.items| > 0
                       && AllProject(key, articles.value.items))
      && (r.Some? ==> r.value == [Project(key, articles.value.items[|articles.value.items| - 1]).value])
      && r == FinalRecords(result, key)
  {
    if key != NewsOrg && key != NewsData {
      return Some([]);
    }
    var finalResult: seq<NewsRecord> := [];
    var articles := Index(result, ArticlesField(key));
    if articles.None? || !articles.value.JArr? {
      return None;
    }
    var items := articles.value.items;
    var interestingData: Option<NewsRecord> := None;
    var i := 0;
    while i < |items|
      invariant 0 <= i <= |items|
      invariant forall j :: 0 <= j < i ==> Project(key, items[j]).Some?
      invariant interestingData == if i == 0 then None else Project(key, items[i - 1])
    {
      var data := Project(key, items[i]);
      if data.None? {
        return None;
      }
      interestingData := data;
      i := i + 1;
    }
    if interestingData.None? {
      return None;
    }
    finalResult := finalResult + [interestingData.value];
    r := Some(finalResult);
  }

  /** `get_s3_subfolder(key)`; an unknown key raises (None). */
  function S3Subfolder(key: string): (r: Option<string>)
    ensures r.Some? <==> key == NewsOrg || key == NewsData
    ensures key == NewsOrg ==> r == Some("news-org")
    ensures key == NewsData ==> r == Some("news-data")
  {
    if key == NewsOrg then Some("news-org")
    else if key == NewsData then Some("news-data")
    else None
  }

  /** `strftime("%Y-%m-%d")` for a four-digit year. */
  function DateStamp(year: nat, month: nat, day: nat): string
    requires 1000 <= year <= 9999 && 1 <= month <= 12 && 1 <= day <= 31
  {
    NatToString(year) + "-" + Pad2(month) + "-" + Pad2(day)
  }

  /** The object key "<subfolder>/<date>/news.json". */
  function ObjectKey(subfolder: string, date: string): string {
    subfolder + "/" + date + "/news.json"
  }

  /** The object key splits back, at its slashes, into the subfolder, the
      date and the file name. */
  lemma ObjectKeyParts(key: string, date: string)
    requires key == NewsOrg || key == NewsData
    requires '/' !in date
    ensures Split(ObjectKey(S3Subfolder(key).value, date), '/') == [S3Subfolder(key).value, date, "news.json"]
  {
    var sub := S3Subfolder(key).value;
    assert '/' !in sub by {
      if key == NewsOrg {
        assert sub == "news-org";
      } else {
        assert sub == "news-data";
      }
    }
    assert '/' !in "news.json";
    assert ObjectKey(sub, date) == sub + ['/'] + date + ['/'] + "news.json";
    SplitThree(sub, date, "news.json", '/');
  }

  /** The date stamp splits, at its dashes, into the year, month and day,
      which read back as the numbers they came from; it has no slash. */
  lemma DateStampParts(year: nat, month: nat, day: nat)
    requires 1000 <= year <= 9999 && 1 <= month <= 12 && 1 <= day <= 31
    ensures var date := DateStamp(year, month, day);
      && '/' !in date
      && Split(date, '-') == [NatToString(year), Pad2(month), Pad2(day)]
      && DigitsValue(NatToString(year)) == year && DigitsValue(Pad2(month)) == month && DigitsValue(Pad2(day)) == day
  {
    var y := NatToString(year);
    var m := Pad2(month);
    var d := Pad2(day);
    assert '-' !in y && '/' !in y by {
      assert forall i :: 0 <= i < |y| ==> IsDigit(y[i]);
    }
    assert '-' !in m && '/' !in m && '-' !in d && '/' !in d;
    SplitThree(y, m, d, '-');
    DigitsValueOfNatToString(year);
    DigitsValueOfPad2(month);
    DigitsValueOfPad2(day);
  }

  /** Each key whose call failed saved the records saved before it. */
  ghost predicate FailuresRepeat(saves: seq<Save>, responses: seq<Option<Json>>)
    requires |saves| <= |responses|
  {
    forall j :: 0 <= j < |saves| && responses[j].None? ==>
      saves[j].records == if j == 0 then [] else saves[j - 1].records
  }

  lemma FailuresRepeatSnoc(saves: seq<Save>, save: Save, responses: seq<Option<Json>>)
    requires |saves| < |responses| && FailuresRepeat(saves, responses)
    requires responses[|saves|].None? ==> save.records == if saves == [] then [] else saves[|saves| - 1].records
    ensures FailuresRepeat(saves + [save], responses)
  {
    var t := saves + [save];
    forall j | 0 <= j < |t| && responses[j].None?
      ensures t[j].records == if j == 0 then [] else t[j - 1].records
    {
      if j > 0 {
        assert t[j - 1] == saves[j - 1];
      }
      if j < |saves| {
        assert t[j] == saves[j];
        assert saves[j].records == if j == 0 then [] else saves[j - 1].records;
      } else {
        assert t[j] == save;
      }
    }
    assert FailuresRepeat(t, responses);
  }

  /** `lambda_handler` on one day. `responses[i]` is the answer of the API
      for `ApiKeys[i]`: its JSON body, or None when the request failed
      (status 500). Each key's records are saved whether or not its call
      succeeded; after a failure the records of the previous key (initially
      none) are saved again. A raise inside `get_final_result` ends the run
      (`completed` false). */
  method LambdaHandler(responses: seq<Option<Json>>, date: string)
    returns (saves: seq<Save>, completed: bool)
    requires |responses| == |ApiKeys|
    ensures |saves| <= |ApiKeys|
    ensures completed ==> |saves| == |ApiKeys|
    ensures forall i :: 0 <= i < |saves| ==> saves[i].objectKey == ObjectKey(S3Subfolder(ApiKeys[i]).value, date)
    ensures FailuresRepeat(saves, responses)
    ensures forall i :: 0 <= i < |saves| ==> |saves[i].records| <= 1
    ensures forall i :: 0 <= i < |saves| && responses[i].Some? ==>
      FinalRecords(responses[i].value, ApiKeys[i]) == Some(saves[i].records)
    ensures !completed ==>
      |saves| < |ApiKeys| && responses[|saves|].Some? && FinalRecords(responses[|saves|].value, ApiKeys[|saves|]).None?
  {
    var finalResult: seq<NewsRecord> := [];
    saves := [];
    var i := 0;
    while i < |ApiKeys|
      invariant 0 <= i <= |ApiKeys| && |saves| == i
      invariant forall j :: 0 <= j < i ==> saves[j].objectKey == ObjectKey(S3Subfolder(ApiKeys[j]).value, date)
      invariant FailuresRepeat(saves, responses)
      invariant forall j :: 0 <= j < i ==> |saves[j].records| <= 1
      invariant |finalResult| <= 1
      invariant forall j :: 0 <= j < i && responses[j].Some? ==>
        FinalRecords(responses[j].value, ApiKeys[j]) == Some(saves[j].records)
      invariant finalResult == if i == 0 then [] else saves[i - 1].records
    {
      var key := ApiKeys[i];
      if responses[i].Some? {
        var projected := GetFinalResult(responses[i].value, key);
        if projected.None? {
          return saves, false;
        }
        finalResult := projected.value;
      }
      var save := Save(ObjectKey(S3Subfolder(key).value, date), finalResult);
      FailuresRepeatSnoc(saves, save, responses);
      saves := saves + [save];
      i := i + 1;
    }
    completed := true;
  }
}
