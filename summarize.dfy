/** The summariser (mlOps/news-nuggets/summarize_and_categorize.py): the
    prompt sent for an article and the parsing of the model's reply of the
    form "| Summary: ... | Category: ...". The chat-completion request is a
    parameter. */
module Summarize {
  import opened Wrappers
  import opened Strings
  import opened JsonValue

  /** The user message: the title, " - ", the description. */
  function UserPrompt(title: string, description: string): (p: string)
    ensures |p| == |title| + 3 + |description|
    ensures p[..|title|] == title && p[|title| + 3..] == description
    ensures p[|title|..|title| + 3] == " - "
  {
    title + " - " + description
  }

  /** The reply in the format the system message asks for. */
  function FormatReply(summary: string, category: string): string {
    "|" + SummaryText(summary) + "|" + CategoryText(category)
  }

  function SummaryText(summary: string): string {
    " Summary: " + summary + " "
  }

  function CategoryText(category: string): string {
    " Category: " + category
  }

  /** The text after the first ':' of a segment, up to the next ':',
      stripped; a segment without ':' raises (None). */
  function AfterColon(segment: string): (r: Option<string>)
    ensures r.Some? <==> ':' in segment
    ensures r.Some? ==> r.value == Trim(Split(segment, ':')[1])
  {
    var parts := Split(segment, ':');
    if |parts| < 2 then
      assert ':' !in segment by {
        if ':' in segment {
          SplitAtFirst(segment, ':');
        }
      }
      None
    else
      assert ':' in segment by {
        if ':' !in segment {
          SplitNoSeparator(segment, ':');
        }
      }
      Some(Trim(parts[1]))
  }

  /** A string holding the separator splits into at least two pieces. */
  lemma SplitAtFirst(s: string, sep: char)
    requires sep in s
    ensures |Split(s, sep)| >= 2
  {
    var i := Find(s, sep);
    assert s == s[..i] + [sep] + s[i + 1..];
    SplitAfterPiece(s[..i], sep, s[i + 1..]);
  }

  /** The summary and category the reply text gives: the second and third
      '|'-segments, each cut after its first ':' and before its second.
      Fewer than three segments, or a segment without ':', raises (None). */
  function ParseContent(content: string): (r: Option<(string, string)>)
    ensures var parts := Split(content, '|');
      r.Some? <==> |parts| >= 3 && ':' in parts[1] && ':' in parts[2]
    ensures var parts := Split(content, '|');
      r.Some? ==> r == Some((Trim(Split(parts[1], ':')[1]), Trim(Split(parts[2], ':')[1])))
  {
    var parts := Split(content, '|');
    if |parts| < 3 then None
    else
      var summary := AfterColon(parts[1]);
      var category := AfterColon(parts[2]);
      if summary.Some? && category.Some? then Some((summary.value, category.value)) else None
  }

  /** A reply of three segments parses from its second and third. */
  lemma ParseThreeSegments(a: string, b: string, c: string)
    requires '|' !in a && '|' !in b && '|' !in c
    ensures ParseContent(a + ['|'] + b + ['|'] + c) ==
      if AfterColon(b).Some? && AfterColon(c).Some? then Some((AfterColon(b).value, AfterColon(c).value)) else None
  {
    SplitThree(a, b, c, '|');
  }

  /** The text after a key and a colon, when no other colon follows. */
  lemma AfterColonOf(key: string, rest: string)
    requires ':' !in key && ':' !in rest
    ensures AfterColon(key + [':'] + rest) == Some(Trim(rest))
  {
    SplitAfterPiece(key, ':', rest);
    SplitNoSeparator(rest, ':');
  }

  /** The category segment of a formatted reply gives the category, stripped. */
  lemma CategorySegment(category: string)
    requires ':' !in category
    ensures AfterColon(CategoryText(category)) == Some(Trim(category))
  {
    assert CategoryText(category) == " Category" + [':'] + (" " + category);
    AfterColonOf(" Category", " " + category);
    TrimPadded(" ", category, "");
    assert " " + category + "" == " " + category;
  }

  /** The summary segment gives the summary, stripped. */
  lemma SummarySegment(summary: string)
    requires ':' !in summary
    ensures AfterColon(SummaryText(summary)) == Some(Trim(summary))
  {
    assert SummaryText(summary) == " Summary" + [':'] + (" " + summary + " ");
    AfterColonOf(" Summary", " " + summary + " ");
    TrimPadded(" ", summary, " ");
  }

  /** The summary segment keeps only what comes before a ':' in the summary. */
  lemma SummarySegmentCut(before: string, after: string)
    requires ':' !in before
    ensures AfterColon(SummaryText(before + ":" + after)) == Some(Trim(before))
  {
    var rest := after + " ";
    assert SummaryText(before + ":" + after) == " Summary" + [':'] + ((" " + before) + [':'] + rest);
    SplitAfterPiece(" Summary", ':', (" " + before) + [':'] + rest);
    SplitAfterPiece(" " + before, ':', rest);
    TrimPadded(" ", before, "");
    assert " " + before + "" == " " + before;
  }

  /** A formatted reply parses from its two segments. */
  lemma ParseFormatted(summary: string, category: string)
    requires '|' !in summary && '|' !in category
    ensures ParseContent(FormatReply(summary, category)) ==
      var s := AfterColon(SummaryText(summary));
      var c := AfterColon(CategoryText(category));
      if s.Some? && c.Some? then Some((s.value, c.value)) else None
  {
    assert FormatReply(summary, category) == "" + ['|'] + SummaryText(summary) + ['|'] + CategoryText(category);
    ParseThreeSegments("", SummaryText(summary), CategoryText(category));
  }

  /** A reply in the requested format, with a summary and a category free
      of '|' and ':', parses to them, stripped. */
  lemma ParseFormatReply(summary: string, category: string)
    requires '|' !in summary && ':' !in summary && '|' !in category && ':' !in category
    ensures ParseContent(FormatReply(summary, category)) == Some((Trim(summary), Trim(category)))
  {
    ParseFormatted(summary, category);
    SummarySegment(summary);
    CategorySegment(category);
  }

  /** A ':' in the summary cuts it short: only the text before it is kept. */
  lemma SummaryCutAtColon(before: string, after: string, category: string)
    requires '|' !in before && ':' !in before && '|' !in after && '|' !in category && ':' !in category
    ensures ParseContent(FormatReply(before + ":" + after, category)) == Some((Trim(before), Trim(category)))
  {
    ParseFormatted(before + ":" + after, category);
    SummarySegmentCut(before, after);
    CategorySegment(category);
  }

  /** What the handler returns: status 200 with the two fields, status 500
      for a failed request, or an exception it does not catch. */
  datatype Outcome = Parsed(summary: string, category: string) | RequestFailed(error: string) | Raised

  /** `result['choices'][0]['message']['content']`; anything missing, or a
      content that is not a string, raises (None). */
  function ReplyContent(result: Json): (r: Option<string>)
    ensures r.Some? <==>
      && result.JObj? && "choices" in result.fields
      && result.fields["choices"].JArr? && |result.fields["choices"].items| > 0
      && var first := result.fields["choices"].items[0];
         && first.JObj? && "message" in first.fields
         && first.fields["message"].JObj? && "content" in first.fields["message"].fields
         && first.fields["message"].fields["content"].JStr?
    ensures r.Some? ==>
      r.value == result.fields["choices"].items[0].fields["message"].fields["content"].s
  {
    var choices := Index(result, "choices");
    if choices.None? || !choices.value.JArr? || |choices.value.items| == 0 then None
    else
      var message := Index(choices.value.items[0], "message");
      if message.None? then None
      else
        var content := Index(message.value, "content");
        if content.Some? && content.value.JStr? then Some(content.value.s) else None
  }

  /** A chat-completion reply whose first choice carries a text message
      gives that text, whatever else the reply and the choice hold. */
  lemma ReplyContentOfCompletion(content: string, fields: map<string, Json>, message: map<string, Json>, rest: seq<Json>)
    ensures var reply := JObj(fields["choices" := JArr([JObj(map["message" := JObj(message["content" := JStr(content)])])] + rest)]);
      ReplyContent(reply) == Some(content)
  {
  }

  /** `lambda_handler`. `reply` is the request's result: the JSON body, or
      the message of the request exception. Only that exception becomes a
      500; a reply that does not parse raises. */
  function LambdaHandler(reply: Result<Json, string>): (r: Outcome)
    ensures reply.Err? <==> r.RequestFailed?
    ensures r.RequestFailed? ==> r.error == reply.error
    ensures r.Parsed? <==> reply.Ok? && ReplyContent(reply.value).Some? && ParseContent(ReplyContent(reply.value).value).Some?
    ensures r.Parsed? ==> (r.summary, r.category) == ParseContent(ReplyContent(reply.value).value).value
  {
    if reply.Err? then RequestFailed(reply.error)
    else
      var content := ReplyContent(reply.value);
      if content.None? then Raised
      else
        var parsed := ParseContent(content.value);
        if parsed.None? then Raised else Parsed(parsed.value.0, parsed.value.1)
  }
}
