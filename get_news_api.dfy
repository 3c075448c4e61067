/** The news-page endpoint (mlOps/news-nuggets/lambda/getNewsAPI.py): the
    query string becomes the arguments of a table scan, and the scan's
    result becomes the response. The scan itself is a parameter. */
module GetNewsApi {
  import opened Wrappers
  import opened Strings
  import opened JsonValue

  const DefaultLimit: int := 20

  /** The arguments `table.scan` is given. */
  datatype ScanArgs = ScanArgs(limit: int, exclusiveStartKey: Option<string>)

  /** What the scan returns: its items and its `LastEvaluatedKey`, each
      possibly absent. */
  datatype ScanResult = ScanResult(items: Option<seq<Json>>, lastEvaluatedKey: Option<map<string, Json>>)

  /** What the handler does: a response, or an exception it does not catch. */
  datatype Outcome = Response(statusCode: int, body: Json) | Raised

  /** The text `int()` accepts once stripped: decimal digits, optionally
      after one sign. */
  predicate IntText(t: string) {
    t != [] && (AllDigits(t) || (t[0] in "+-" && |t| > 1 && AllDigits(t[1..])))
  }

  /** The number such a text denotes; leading zeros are allowed. */
  function IntTextValue(t: string): int
    requires IntText(t)
  {
    if t[0] == '-' then -(DigitsValue(t[1..]) as int)
    else if t[0] == '+' then DigitsValue(t[1..]) as int
    else DigitsValue(t) as int
  }

  /** `int(s)` for a string: optional surrounding whitespace, an optional
      sign and at least one decimal digit; anything else raises (None). */
  function PythonInt(s: string): (r: Option<int>)
    ensures r.Some? <==> IntText(Trim(s))
    ensures r.Some? ==> r.value == IntTextValue(Trim(s))
  {
    var t := Trim(s);
    if |t| > 0 && (t[0] == '-' || t[0] == '+') then
      match Unsigned(t[1..])
      case None => None
      case Some(v) => Some(if t[0] == '-' then -v else v)
    else Unsigned(t)
  }

  /** One or more decimal digits, read as a number. */
  function Unsigned(digits: string): (r: Option<int>)
    ensures r.Some? ==> |digits| > 0 && r.value >= 0
  {
    if |digits| > 0 && AllDigits(digits) then Some(DigitsValue(digits)) else None
  }

  /** Reading a rendered integer gives it back. */
  lemma PythonIntOfIntToString(n: int)
    ensures PythonInt(IntToString(n)) == Some(n)
  {
    var m: nat := if n < 0 then -n else n;
    var digits := NatToString(m);
    DigitsValueOfNatToString(m);
    var t := IntToString(n);
    if n < 0 {
      assert |t| > 1 && t[0] == '-' && t[1..] == digits;
      PythonIntNegative(t);
    } else {
      assert t == digits && IntText(t) && IntTextValue(t) == n;
      assert !IsSpace(t[0]) && !IsSpace(t[|t| - 1]);
      PythonIntOfTrimmed(t);
    }
  }

  /** A minus sign followed by digits reads as the negated number. */
  lemma PythonIntNegative(t: string)
    requires |t| > 1 && t[0] == '-' && AllDigits(t[1..])
    ensures PythonInt(t) == Some(-(DigitsValue(t[1..]) as int))
  {
    assert IsDigit(t[1..][|t| - 2]);
    PythonIntOfTrimmed(t);
  }

  /** Text without surrounding whitespace that `int()` accepts. */
  lemma PythonIntOfTrimmed(t: string)
    requires t != [] && !IsSpace(t[0]) && !IsSpace(t[|t| - 1]) && IntText(t)
    ensures PythonInt(t) == Some(IntTextValue(t))
  {
    TrimUnpadded(t);
  }

  /** A plus sign and leading zeros are accepted. */
  lemma PythonIntPlusAndZeros()
    ensures PythonInt("+5") == Some(5)
    ensures PythonInt("007") == Some(7)
  {
    PythonIntOfTrimmed("+5");
    assert "+5"[1..] == "5";
    PythonIntOfTrimmed("007");
    assert DigitsValue("007") == 7 by {
      assert "007"[..2] == "00";
      assert "00"[..1] == "0";
    }
  }

  /** Text without a single decimal digit raises: "", "-", "abc". */
  lemma PythonIntNeedsDigit(s: string)
    requires forall k :: 0 <= k < |s| ==> !IsDigit(s[k])
    ensures PythonInt(s) == None
  {
    TrimSlice(s);
    var i, j :| 0 <= i <= j <= |s| && IsBlank(s[..i]) && IsBlank(s[j..]) && Trim(s) == s[i..j];
    var t := Trim(s);
    forall k | 0 <= k < |t|
      ensures !IsDigit(t[k])
    {
      assert t[k] == s[i + k];
    }
    assert |t| > 1 ==> t[1..][0] == t[1];
  }

  /** `event.get('queryStringParameters') or {}`: absent or empty
      parameters are the empty map. */
  function Params(query: Option<map<string, string>>): (p: map<string, string>)
    ensures query.None? ==> p == map[]
    ensures query.Some? ==> p == query.value
  {
    if query.Some? && |query.value| > 0 then query.value else map[]
  }

  /** The scan arguments: `Limit` is `int(limit)`, 20 when absent, and
      `ExclusiveStartKey` is set exactly when `lastKey` is present and not
      empty. A limit `int` cannot read raises (None). */
  function BuildScanArgs(query: Option<map<string, string>>): (r: Option<ScanArgs>)
    ensures var p := Params(query);
      && ("limit" !in p ==> r.Some? && r.value.limit == DefaultLimit)
      && ("limit" in p ==> (r.Some? <==> PythonInt(p["limit"]).Some?))
      && ("limit" in p && r.Some? ==> r.value.limit == PythonInt(p["limit"]).value)
      && (r.Some? ==> (r.value.exclusiveStartKey.Some? <==> "lastKey" in p && p["lastKey"] != ""))
      && (r.Some? && r.value.exclusiveStartKey.Some? ==> r.value.exclusiveStartKey.value == p["lastKey"])
  {
    var p := Params(query);
    var limit := if "limit" in p then PythonInt(p["limit"]) else Some(DefaultLimit);
    if limit.None? then None
    else
      var lastKey := if "lastKey" in p && p["lastKey"] != "" then Some(p["lastKey"]) else None;
      Some(ScanArgs(limit.value, lastKey))
  }

  /** The success body: the items (none when absent) and the `article_id`
      of the last evaluated key, null when there is none. */
  function SuccessBody(result: ScanResult): (body: Json)
    ensures body.JObj? && body.fields.Keys == {"items", "lastKey"}
    ensures body.fields["items"] == JArr(result.items.GetOr([]))
    ensures body.fields["lastKey"] == if result.lastEvaluatedKey.Some? && "article_id" in result.lastEvaluatedKey.value
                                      then result.lastEvaluatedKey.value["article_id"] else JNull
  {
    var key := result.lastEvaluatedKey.GetOr(map[]);
    JObj(map["items" := JArr(result.items.GetOr([])),
             "lastKey" := if "article_id" in key then key["article_id"] else JNull])
  }

  /** `lambda_handler`. `scan` performs the scan: Ok with its result, or
      Err with the message of the exception it raised. A limit that cannot
      be read raises before the try; only the scan's failure becomes a 500. */
  function LambdaHandler(query: Option<map<string, string>>, scan: ScanArgs -> Result<ScanResult, string>): (r: Outcome)
    ensures r == Raised <==> BuildScanArgs(query).None?
    ensures r.Response? ==> r.statusCode == 200 || r.statusCode == 500
    ensures r.Response? && r.statusCode == 500 <==> BuildScanArgs(query).Some? && scan(BuildScanArgs(query).value).Err?
    ensures r.Response? && r.statusCode == 200 ==> r.body == SuccessBody(scan(BuildScanArgs(query).value).value)
    ensures r.Response? && r.statusCode == 500 ==>
      r.body == JObj(map["error" := JStr(scan(BuildScanArgs(query).value).error)])
  {
    match BuildScanArgs(query)
    case None => Raised
    case Some(args) =>
      match scan(args)
      case Ok(result) => Response(200, SuccessBody(result))
      case Err(message) => Response(500, JObj(map["error" := JStr(message)]))
  }

  /** A page request carrying the key a previous response returned asks the
      scan to start after that key. */
  lemma ContinuationKeyForwarded(limit: int, key: string)
    requires key != ""
    ensures BuildScanArgs(Some(map["limit" := IntToString(limit), "lastKey" := key]))
         == Some(ScanArgs(limit, Some(key)))
  {
    PythonIntOfIntToString(limit);
  }
}
