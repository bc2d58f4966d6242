/** The export call of `logs_api/client.py`: the address and the query parameters of one
    request for a day range, and the check of the answer's status. Sending the request is
    not modelled: the status and the text of the answer are inputs. */
module LogsApiClient {
  import opened Common
  import opened Dicts
  import opened Calendar

  /** `LogsApiError(status_code, text)` */
  datatype LogsApiError = LogsApiError(statusCode: int, text: string)

  /** `LogsApiClient(token, host)` */
  datatype Client = Client(token: string, host: string)

  /** A GET request: the address and the query parameters in the order `requests` sends
      them. Integer parameters are sent as their decimal text. */
  datatype Request = Request(url: string, params: Dict<string, string>)

  const ExportPath: string := "/logs/v1/export/"
  const CsvSuffix: string := ".csv"

  /** `'{host}/logs/v1/export/{table}.csv'`: the host, the export path, the table, `.csv`;
      the table name can be read back from between the path and the suffix. */
  function ExportUrl(host: string, table: string): (url: string)
    ensures |url| == |host| + |ExportPath| + |table| + |CsvSuffix|
    ensures url[..|host|] == host
    ensures url[|host|..|host| + |ExportPath|] == ExportPath
    ensures url[|host| + |ExportPath|..|url| - |CsvSuffix|] == table
    ensures url[|url| - |CsvSuffix|..] == CsvSuffix
  {
    var url := host + ExportPath + table + CsvSuffix;
    assert url[..|host|] == host;
    assert url[|host|..|host| + |ExportPath|] == ExportPath;
    assert url[|host| + |ExportPath|..|url| - |CsvSuffix|] == table;
    url
  }

  /** `combine(date, time.min).strftime('%Y-%m-%d %H:%M:%S')` */
  function DateSince(d: Date): string
    requires ValidDate(d)
  {
    FormatDate(d) + " 00:00:00"
  }

  /** `combine(date, time.max).strftime('%Y-%m-%d %H:%M:%S')`: the microseconds of
      `time.max` are not part of the format. */
  function DateUntil(d: Date): string
    requires ValidDate(d)
  {
    FormatDate(d) + " 23:59:59"
  }

  /** Both ends of the range name their own day, which reads back from the first ten
      characters, and the range covers the whole day. */
  lemma DayBounds(from: Date, to: Date)
    requires ValidDate(from) && ValidDate(to)
    ensures |DateSince(from)| == 19 && |DateUntil(to)| == 19
    ensures ParseDate(DateSince(from)[..10]) == Some(from)
    ensures ParseDate(DateUntil(to)[..10]) == Some(to)
    ensures DateSince(from)[10..] == " 00:00:00" && DateUntil(to)[10..] == " 23:59:59"
  {
    assert DateSince(from)[..10] == FormatDate(from);
    assert DateUntil(to)[..10] == FormatDate(to);
    ParseFormatDate(from);
    ParseFormatDate(to);
  }

  /** The dictionary `logs_api_export` builds, from the texts of its values: the six
      parameters always sent, in the order of the literal, and the part counters added by
      `params.update` only when the export is split into more than one part. No name is
      sent twice. */
  function QueryParams(appId: string, since: string, until: string, fieldList: string,
                       token: string, partsCount: nat, partNumber: nat): (params: Dict<string, string>)
    ensures UniqueKeys(params)
    ensures Keys(params) == BaseKeys + (if partsCount > 1 then ["parts_count", "part_number"] else [])
  {
    var base := FixedParams(appId, since, until, fieldList, token);
    ParamNamesDiffer();
    assert Keys(base) == BaseKeys;
    DistinctKeys(base);
    if partsCount > 1 then
      CountedKeys(base, NatToString(partsCount), NatToString(partNumber));
      Set(Set(base, "parts_count", NatToString(partsCount)), "part_number", NatToString(partNumber))
    else base
  }

  /** The six parameters always sent, in the order of the dictionary literal. */
  function FixedParams(appId: string, since: string, until: string, fieldList: string,
                       token: string): Dict<string, string>
  {
    [("application_id", appId), ("date_since", since), ("date_until", until),
     ("date_dimension", "default"), ("fields", fieldList), ("oauth_token", token)]
  }

  /** `logs_api_export`'s parameters. */
  function ExportParams(c: Client, appId: string, fields: seq<string>, from: Date, to: Date,
                        partsCount: nat, partNumber: nat): Dict<string, string>
    requires ValidDate(from) && ValidDate(to)
  {
    QueryParams(appId, DateSince(from), DateUntil(to), Join(fields, ","), c.token, partsCount, partNumber)
  }

  /** The request `logs_api_export` sends: the address of the table's CSV export, and
      parameters naming the application, the whole of the day range, the joined fields and
      the token, with the part counters when the export is split. */
  function ExportRequest(c: Client, appId: string, table: string, fields: seq<string>,
                         from: Date, to: Date, partsCount: nat, partNumber: nat): (r: Request)
    requires ValidDate(from) && ValidDate(to)
    ensures r.url == ExportUrl(c.host, table)
    ensures UniqueKeys(r.params)
    ensures Keys(r.params) == BaseKeys + (if partsCount > 1 then ["parts_count", "part_number"] else [])
    ensures Get(r.params, "application_id") == Some(appId)
    ensures Get(r.params, "date_since") == Some(DateSince(from))
    ensures Get(r.params, "date_until") == Some(DateUntil(to))
    ensures Get(r.params, "fields") == Some(Join(fields, ","))
    ensures Get(r.params, "oauth_token") == Some(c.token)
    ensures Get(r.params, "parts_count") == (if partsCount > 1 then Some(NatToString(partsCount)) else None)
    ensures Get(r.params, "part_number") == (if partsCount > 1 then Some(NatToString(partNumber)) else None)
  {
    QueryParamValues(appId, DateSince(from), DateUntil(to), Join(fields, ","), c.token, partsCount, partNumber);
    Request(ExportUrl(c.host, table), ExportParams(c, appId, fields, from, to, partsCount, partNumber))
  }

  const BaseKeys: seq<string> :=
    ["application_id", "date_since", "date_until", "date_dimension", "fields", "oauth_token"]

  lemma CountedKeys(base: Dict<string, string>, count: string, number: string)
    requires Keys(base) == BaseKeys
    requires NoRepeats(BaseKeys + ["parts_count", "part_number"])
    requires "parts_count" !in BaseKeys && "part_number" !in BaseKeys
    ensures var params := Set(Set(base, "parts_count", count), "part_number", number);
      UniqueKeys(params) && Keys(params) == BaseKeys + ["parts_count", "part_number"]
  {
    SetTwice(base, "parts_count", count, "part_number", number);
    var params := base + [("parts_count", count), ("part_number", number)];
    assert Keys(params) == BaseKeys + ["parts_count", "part_number"];
    DistinctKeys(params);
  }

  /** The eight parameter names differ from one another. */
  lemma ParamNamesDiffer()
    ensures var names := BaseKeys + ["parts_count", "part_number"];
      NoRepeats(names) && NoRepeats(BaseKeys)
    ensures "parts_count" !in BaseKeys && "part_number" !in BaseKeys
  {
    assert "application_id"[0] == 'a' && "date_since"[0] == 'd' && "date_until"[0] == 'd';
    assert "date_dimension"[0] == 'd' && "fields"[0] == 'f' && "oauth_token"[0] == 'o';
    assert "date_since"[5] == 's' && "date_until"[5] == 'u' && "date_dimension"[5] == 'd';
    assert "parts_count"[0] == 'p' && "part_number"[0] == 'p';
    assert "part_number"[4] == '_' && "parts_count"[4] == 's';
  }

  /** What the parameters carry: each fixed value under its own name, and the part
      counters, as decimal text, when there is more than one part. */
  lemma QueryParamValues(appId: string, since: string, until: string, fieldList: string,
                         token: string, partsCount: nat, partNumber: nat)
    ensures var params := QueryParams(appId, since, until, fieldList, token, partsCount, partNumber);
      Get(params, "application_id") == Some(appId) &&
      Get(params, "date_since") == Some(since) &&
      Get(params, "date_until") == Some(until) &&
      Get(params, "date_dimension") == Some("default") &&
      Get(params, "fields") == Some(fieldList) &&
      Get(params, "oauth_token") == Some(token) &&
      Get(params, "parts_count") == (if partsCount > 1 then Some(NatToString(partsCount)) else None) &&
      Get(params, "part_number") == (if partsCount > 1 then Some(NatToString(partNumber)) else None)
  {
    var base := FixedParams(appId, since, until, fieldList, token);
    BaseParamValues(appId, since, until, fieldList, token);
    if partsCount > 1 {
      var params := QueryParams(appId, since, until, fieldList, token, partsCount, partNumber);
      assert params == Set(Set(base, "parts_count", NatToString(partsCount)), "part_number", NatToString(partNumber));
      CountersAdded(base, NatToString(partsCount), NatToString(partNumber), "application_id");
      CountersAdded(base, NatToString(partsCount), NatToString(partNumber), "date_since");
      CountersAdded(base, NatToString(partsCount), NatToString(partNumber), "date_until");
      CountersAdded(base, NatToString(partsCount), NatToString(partNumber), "date_dimension");
      CountersAdded(base, NatToString(partsCount), NatToString(partNumber), "fields");
      CountersAdded(base, NatToString(partsCount), NatToString(partNumber), "oauth_token");
      CountersAdded(base, NatToString(partsCount), NatToString(partNumber), "parts_count");
      CountersAdded(base, NatToString(partsCount), NatToString(partNumber), "part_number");
    }
  }

  lemma BaseParamValues(appId: string, since: string, until: string, fieldList: string, token: string)
    ensures var base := FixedParams(appId, since, until, fieldList, token);
      Get(base, "application_id") == Some(appId) &&
      Get(base, "date_since") == Some(since) &&
      Get(base, "date_until") == Some(until) &&
      Get(base, "date_dimension") == Some("default") &&
      Get(base, "fields") == Some(fieldList) &&
      Get(base, "oauth_token") == Some(token) &&
      Get(base, "parts_count") == None && Get(base, "part_number") == None
  {
    var base := FixedParams(appId, since, until, fieldList, token);
    assert QueryParams(appId, since, until, fieldList, token, 1, 0) == base;
    GetAt(base, 0);
    GetAt(base, 1);
    GetAt(base, 2);
    GetAt(base, 3);
    GetAt(base, 4);
    GetAt(base, 5);
    BaseLacksCounters(appId, since, until, fieldList, token);
  }

  lemma BaseLacksCounters(appId: string, since: string, until: string, fieldList: string, token: string)
    ensures var base := FixedParams(appId, since, until, fieldList, token);
      Get(base, "parts_count") == None && Get(base, "part_number") == None
  {
    var base := FixedParams(appId, since, until, fieldList, token);
    assert Keys(base) == BaseKeys;
    assert "parts_count"[0] == 'p' && "part_number"[0] == 'p';
    assert "parts_count" !in BaseKeys && "part_number" !in BaseKeys;
  }

  /** Adding the two counters to a dictionary changes only their two entries. */
  lemma CountersAdded(base: Dict<string, string>, count: string, number: string, k: string)
    ensures Get(Set(Set(base, "parts_count", count), "part_number", number), k)
         == if k == "part_number" then Some(number)
            else if k == "parts_count" then Some(count)
            else Get(base, k)
  {
    assert "part_number"[4] == '_' && "parts_count"[4] == 's';
    GetSet(Set(base, "parts_count", count), "part_number", number, k);
    GetSet(base, "parts_count", count, k);
  }

  /** `','.join(fields)` gives the server the field list back when it splits on commas:
      the names hold no comma and there is at least one. */
  lemma FieldsRoundTrip(fields: seq<string>)
    requires |fields| >= 1
    requires forall k :: 0 <= k < |fields| ==> ',' !in fields[k]
    ensures Split(Join(fields, ","), ',') == fields
  {
    JoinSplit(fields, ',');
  }

  /** `if response.status_code != 200: raise LogsApiError(status_code, text)`: the answer
      is used only with status 200, and any other status is reported with its text. */
  function CheckStatus(status: int, text: string): (r: Result<(), LogsApiError>)
    ensures r.Ok? <==> status == 200
    ensures r.Err? ==> r.error.statusCode == status && r.error.text == text
  {
    if status != 200 then Err(LogsApiError(status, text)) else Ok(())
  }
}
