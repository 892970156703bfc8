/**
 * The request and export logic of the formulary fetch tool: the URL of one
 * request to the CMS data API, the outcome of that request (the network is a
 * parameter), and the header and rows a CSV export of a record list holds.
 */
module FormularyFetch {
  import opened Wrappers
  import opened Text

  /** One record of the dataset: a flat mapping from field name to value. */
  type Record = map<string, string>

  const ApiBaseUrl: string := "https://data.cms.gov/data-api/v1/dataset"
  const DatasetId: string := "cb2a224f-4d52-4cae-aa55-8c00c671384f"

  /** The fixed dataset endpoint every request starts from. */
  const Endpoint: string := ApiBaseUrl + "/" + DatasetId + "/data"

  // ===========================================================================
  // Request URL

  /** One query parameter; both parameters the tool sends are integers. */
  datatype Param = Param(key: string, value: int)

  /** The `params` dict in insertion order: `size` first, each one only when given. */
  function QueryParams(size: Option<int>, offset: Option<int>): seq<Param> {
    (if size.Some? then [Param("size", size.value)] else [])
      + (if offset.Some? then [Param("offset", offset.value)] else [])
  }

  /** `urlencode` of one integer parameter: `key=value` in decimal. */
  function EncodeParam(p: Param): string {
    Join([p.key, IntToDecimal(p.value)], '=')
  }

  /** `urlencode` of a non-empty parameter list: the pairs joined by `&`. */
  function UrlEncode(params: seq<Param>): string
    requires |params| >= 1
  {
    Join(seq(|params|, i requires 0 <= i < |params| => EncodeParam(params[i])), '&')
  }

  /** The URL `fetch_formulary_data(size, offset)` requests. */
  function RequestUrl(size: Option<int>, offset: Option<int>): (url: string)
    ensures |Endpoint| <= |url| && url[..|Endpoint|] == Endpoint
    ensures url == Endpoint <==> size.None? && offset.None?
  {
    var params := QueryParams(size, offset);
    if params == [] then Endpoint else Endpoint + "?" + UrlEncode(params)
  }

  /** The concrete shape of the URL for each combination of arguments. */
  lemma RequestUrlShape(size: int, offset: int)
    ensures RequestUrl(None, None) == Endpoint
    ensures RequestUrl(Some(size), None) == Endpoint + "?size=" + IntToDecimal(size)
    ensures RequestUrl(None, Some(offset)) == Endpoint + "?offset=" + IntToDecimal(offset)
    ensures RequestUrl(Some(size), Some(offset))
         == Endpoint + "?size=" + IntToDecimal(size) + "&offset=" + IntToDecimal(offset)
  {
    var s, o := Param("size", size), Param("offset", offset);
    JoinTwo("size", IntToDecimal(size), '=');
    JoinTwo("offset", IntToDecimal(offset), '=');
    assert QueryParams(Some(size), None) == [s];
    assert QueryParams(None, Some(offset)) == [o];
    assert QueryParams(Some(size), Some(offset)) == [s, o];
    assert UrlEncode([s]) == EncodeParam(s);
    assert UrlEncode([o]) == EncodeParam(o);
    assert seq(2, i requires 0 <= i < 2 => EncodeParam([s, o][i])) == [EncodeParam(s), EncodeParam(o)];
    JoinTwo(EncodeParam(s), EncodeParam(o), '&');
  }

  // Reading a request URL back: the partner of RequestUrl.

  function DecodeParam(field: string): Option<Param> {
    var kv := Split(field, '=');
    if |kv| != 2 then None
    else match ParseInt(kv[1])
      case Some(v) => Some(Param(kv[0], v))
      case None => None
  }

  function DecodeParams(fields: seq<string>): Option<seq<Param>>
    decreases |fields|
  {
    if fields == [] then Some([])
    else match (DecodeParam(fields[0]), DecodeParams(fields[1..]))
      case (Some(p), Some(ps)) => Some([p] + ps)
      case _ => None
  }

  /** The arguments a parameter list stands for, accepting only `size` before `offset`. */
  function ArgumentsOf(params: seq<Param>): Option<(Option<int>, Option<int>)> {
    if params == [] then Some((None, None))
    else if |params| == 1 && params[0].key == "size" then Some((Some(params[0].value), None))
    else if |params| == 1 && params[0].key == "offset" then Some((None, Some(params[0].value)))
    else if |params| == 2 && params[0].key == "size" && params[1].key == "offset" then
      Some((Some(params[0].value), Some(params[1].value)))
    else None
  }

  /** The `(size, offset)` arguments a request URL encodes, if it is one. */
  function DecodeRequestUrl(url: string): Option<(Option<int>, Option<int>)> {
    if url == Endpoint then Some((None, None))
    else if |url| > |Endpoint| && url[..|Endpoint| + 1] == Endpoint + "?" then
      match DecodeParams(Split(url[|Endpoint| + 1..], '&'))
      case Some(params) => ArgumentsOf(params)
      case None => None
    else None
  }

  lemma DecodeEncodedParam(p: Param)
    requires '=' !in p.key && '&' !in p.key
    ensures '&' !in EncodeParam(p)
    ensures DecodeParam(EncodeParam(p)) == Some(p)
  {
    var digits := IntToDecimal(p.value);
    assert forall k :: 0 <= k < |digits| ==> digits[k] != '=' && digits[k] != '&';
    JoinTwo(p.key, digits, '=');
    SplitJoin([p.key, digits], '=');
    IntRoundTrip(p.value);
  }

  lemma {:induction false} DecodeEncodedParams(params: seq<Param>)
    requires forall i :: 0 <= i < |params| ==> '=' !in params[i].key && '&' !in params[i].key
    ensures DecodeParams(seq(|params|, i requires 0 <= i < |params| => EncodeParam(params[i])))
         == Some(params)
    decreases |params|
  {
    var fields := seq(|params|, i requires 0 <= i < |params| => EncodeParam(params[i]));
    if params != [] {
      DecodeEncodedParam(params[0]);
      DecodeEncodedParams(params[1..]);
      assert fields[1..] == seq(|params[1..]|, i requires 0 <= i < |params[1..]| => EncodeParam(params[1..][i]));
      assert params == [params[0]] + params[1..];
    }
  }

  /** Splitting an encoded query on `&` and decoding each field gives the parameters back. */
  lemma DecodeUrlEncode(params: seq<Param>)
    requires |params| >= 1
    requires forall i :: 0 <= i < |params| ==> '=' !in params[i].key && '&' !in params[i].key
    ensures DecodeParams(Split(UrlEncode(params), '&')) == Some(params)
  {
    var fields := seq(|params|, i requires 0 <= i < |params| => EncodeParam(params[i]));
    forall i | 0 <= i < |fields| ensures '&' !in fields[i] {
      DecodeEncodedParam(params[i]);
    }
    SplitJoin(fields, '&');
    DecodeEncodedParams(params);
  }

  lemma ArgumentsOfQueryParams(size: Option<int>, offset: Option<int>)
    ensures ArgumentsOf(QueryParams(size, offset)) == Some((size, offset))
  {
  }

  /**
   * A request URL determines the arguments it was built from: each parameter
   * is present exactly when it was given, with its value, `size` before `offset`.
   */
  lemma RequestUrlRoundTrip(size: Option<int>, offset: Option<int>)
    ensures DecodeRequestUrl(RequestUrl(size, offset)) == Some((size, offset))
  {
    var params := QueryParams(size, offset);
    ArgumentsOfQueryParams(size, offset);
    if params != [] {
      var url := RequestUrl(size, offset);
      assert url == Endpoint + "?" + UrlEncode(params);
      assert url[..|Endpoint| + 1] == Endpoint + "?";
      assert url[|Endpoint| + 1..] == UrlEncode(params);
      DecodeUrlEncode(params);
    }
  }

  // ===========================================================================
  // Fetching

  /** What the server does with one GET request (the network is abstracted away). */
  datatype Response =
    | Body(records: seq<Record>)         // 2xx with a JSON array body
    | HttpError(code: int, reason: string)
    | UrlError(reason: string)           // DNS, connection, timeout
    | Malformed(reason: string)          // undecodable or unparsable body

  /** The outcome of `fetch_formulary_data`: the records, or a process exit. */
  datatype Fetch = Fetched(records: seq<Record>) | Exit(status: int)

  /**
   * One request: the records of a successful response, and a process exit
   * with status 1 for every kind of failure.
   */
  function FetchFormularyData(size: Option<int>, offset: Option<int>, server: string -> Response): (r: Fetch)
    ensures r.Fetched? <==> server(RequestUrl(size, offset)).Body?
    ensures r.Fetched? ==> r.records == server(RequestUrl(size, offset)).records
    ensures r.Exit? ==> r.status == 1
  {
    match server(RequestUrl(size, offset))
    case Body(records) => Fetched(records)
    case HttpError(_, _) => Exit(1)
    case UrlError(_) => Exit(1)
    case Malformed(_) => Exit(1)
  }

  // ===========================================================================
  // CSV export: header and rows

  /** The union of the field names of all records. */
  function UnionKeys(data: seq<Record>): set<string> {
    if data == [] then {} else UnionKeys(data[..|data| - 1]) + data[|data| - 1].Keys
  }

  /** A field name is in the union exactly when some record has it. */
  lemma {:induction false} UnionKeysMembership(data: seq<Record>, k: string)
    ensures k in UnionKeys(data) <==> exists i :: 0 <= i < |data| && k in data[i]
  {
    if data != [] {
      var init := data[..|data| - 1];
      UnionKeysMembership(init, k);
      if k in UnionKeys(init) {
        var i :| 0 <= i < |init| && k in init[i];
        assert k in data[i];
      }
      if exists i :: 0 <= i < |data| && k in data[i] {
        var i :| 0 <= i < |data| && k in data[i];
        if i < |data| - 1 {
          assert k in init[i];
        }
      }
    }
  }

  predicate StrictlyAscending(s: seq<string>) {
    forall i, j :: 0 <= i < j < |s| ==> Less(s[i], s[j])
  }

  /** Adds `x` to a strictly ascending sequence, keeping it strictly ascending. */
  function InsertSorted(s: seq<string>, x: string): (r: seq<string>)
    requires StrictlyAscending(s)
    ensures StrictlyAscending(r)
    ensures forall y :: y in r <==> y in s || y == x
    decreases |s|
  {
    if s == [] then [x]
    else if x == s[0] then s
    else if Less(x, s[0]) then
      assert forall j :: 0 < j < |s| ==> Less(x, s[j]) by {
        forall j | 0 < j < |s| {
          LessTransitive(x, s[0], s[j]);
        }
      }
      [x] + s
    else
      LessTotal(x, s[0]);
      var t := InsertSorted(s[1..], x);
      assert forall j :: 0 <= j < |t| ==> Less(s[0], t[j]) by {
        forall j | 0 <= j < |t| ensures Less(s[0], t[j]) {
          if t[j] != x {
            assert t[j] in s[1..];
            var k :| 0 <= k < |s[1..]| && s[1..][k] == t[j];
            assert s[k + 1] == t[j];
          }
        }
      }
      [s[0]] + t
  }

  /** Python's `sorted` on a set of field names. */
  method SortedStrings(names: set<string>) returns (r: seq<string>)
    ensures StrictlyAscending(r)
    ensures forall x :: x in r <==> x in names
  {
    r := [];
    var rest := names;
    while rest != {}
      invariant StrictlyAscending(r)
      invariant forall x :: x in names <==> x in r || x in rest
      decreases rest
    {
      var x :| x in rest;
      r := InsertSorted(r, x);
      rest := rest - {x};
    }
  }

  /** There is only one strictly ascending sequence of a given set of names. */
  lemma {:induction false} SortedUnique(a: seq<string>, b: seq<string>)
    requires StrictlyAscending(a) && StrictlyAscending(b)
    requires forall x :: x in a <==> x in b
    ensures a == b
    decreases |a|
  {
    // b's first element would have to be in a, so b is empty when a is
    assert |b| > 0 ==> b[0] in b;
    if a != [] {
      assert a[0] in a;
      assert b != [] && b[0] in b;
      var i :| 0 <= i < |a| && a[i] == b[0];
      var j :| 0 <= j < |b| && b[j] == a[0];
      if i != 0 && j != 0 {
        LessTransitive(a[0], a[i], a[0]);
        LessIrreflexive(a[0]);
        assert false;
      }
      assert a[0] == b[0];
      forall x ensures x in a[1..] <==> x in b[1..] {
        if x in a[1..] {
          var k :| 0 <= k < |a[1..]| && a[1..][k] == x;
          assert a[k + 1] == x;
          LessIrreflexive(x);
          assert x in b && x != b[0];
          var m :| 0 <= m < |b| && b[m] == x;
          assert b[1..][m - 1] == x;
        }
        if x in b[1..] {
          var k :| 0 <= k < |b[1..]| && b[1..][k] == x;
          assert b[k + 1] == x;
          LessIrreflexive(x);
          assert x in a && x != a[0];
          var m :| 0 <= m < |a| && a[m] == x;
          assert a[1..][m - 1] == x;
        }
      }
      SortedUnique(a[1..], b[1..]);
      assert a == [a[0]] + a[1..] && b == [b[0]] + b[1..];
    }
  }

  /** The cell a record gives to a column: its value, or empty when it lacks the field. */
  function Cell(record: Record, key: string): string {
    if key in record then record[key] else ""
  }

  /** The CSV row `DictWriter` writes for one record under a header. */
  function Row(header: seq<string>, record: Record): (row: seq<string>)
    ensures |row| == |header|
    ensures forall i :: 0 <= i < |header| ==> row[i] == Cell(record, header[i])
    decreases |header|
  {
    if header == [] then [] else [Cell(record, header[0])] + Row(header[1..], record)
  }

  /** What a CSV export holds: a header line and one row per record. */
  datatype CsvTable = CsvTable(header: seq<string>, rows: seq<seq<string>>)

  /** `table` is the CSV export of `data`. */
  ghost predicate IsCsvOf(data: seq<Record>, table: CsvTable) {
    && StrictlyAscending(table.header)
    && (forall k :: k in table.header <==> k in UnionKeys(data))
    && |table.rows| == |data|
    && forall i :: 0 <= i < |data| ==> table.rows[i] == Row(table.header, data[i])
  }

  /**
   * `export_to_csv`: nothing for an empty record list; otherwise the sorted
   * union of the field names as header and one row per record, in order.
   */
  method ExportToCsv(data: seq<Record>) returns (written: Option<CsvTable>)
    ensures written.None? <==> data == []
    ensures written.Some? ==> IsCsvOf(data, written.value)
  {
    if data == [] {
      return None;
    }
    var fieldnames: set<string> := {};
    for i := 0 to |data|
      invariant fieldnames == UnionKeys(data[..i])
    {
      assert data[..i + 1][..i] == data[..i];
      fieldnames := fieldnames + data[i].Keys;
    }
    assert data[..|data|] == data;
    var header := SortedStrings(fieldnames);
    var rows := seq(|data|, i requires 0 <= i < |data| => Row(header, data[i]));
    written := Some(CsvTable(header, rows));
  }

  /** The header of an export is the set of field names some record has. */
  lemma HeaderIsKeyUnion(data: seq<Record>, table: CsvTable, k: string)
    requires IsCsvOf(data, table)
    ensures k in table.header <==> exists i :: 0 <= i < |data| && k in data[i]
  {
    UnionKeysMembership(data, k);
  }

  // Reading a CSV row back, as `csv.DictReader` does: the partner of Row.

  /** The record a row reads back as: later columns win, as in `dict(zip(header, row))`. */
  function ReadRow(header: seq<string>, row: seq<string>): Record
    requires |row| == |header|
    decreases |header|
  {
    if header == [] then map[]
    else ReadRow(header[..|header| - 1], row[..|row| - 1])[header[|header| - 1] := row[|row| - 1]]
  }

  /** A field reads back from a row exactly when it is in the header, from one of its columns. */
  lemma {:induction false} ReadRowEntry(header: seq<string>, row: seq<string>, k: string)
    requires |row| == |header|
    ensures k in ReadRow(header, row) <==> k in header
    ensures k in header ==>
      exists i :: 0 <= i < |header| && header[i] == k && ReadRow(header, row)[k] == row[i]
    decreases |header|
  {
    if header != [] {
      var n := |header|;
      var init, last := header[..n - 1], header[n - 1];
      assert header == init + [last];
      ReadRowEntry(init, row[..n - 1], k);
      if k == last {
        assert header[n - 1] == k && ReadRow(header, row)[k] == row[n - 1];
      } else if k in init {
        var i :| 0 <= i < |init| && init[i] == k && ReadRow(init, row[..n - 1])[k] == row[..n - 1][i];
        assert header[i] == k && ReadRow(header, row)[k] == row[i];
      }
    }
  }

  /** Reading a row back gives every header field, with the record's value or "". */
  lemma RowRoundTrip(header: seq<string>, record: Record)
    ensures forall k :: k in ReadRow(header, Row(header, record)) <==> k in header
    ensures forall k :: k in ReadRow(header, Row(header, record))
                     ==> ReadRow(header, Row(header, record))[k] == Cell(record, k)
  {
    var row := Row(header, record);
    forall k ensures k in ReadRow(header, row) <==> k in header
             ensures k in ReadRow(header, row) ==> ReadRow(header, row)[k] == Cell(record, k)
    {
      ReadRowEntry(header, row, k);
    }
  }

  /**
   * Exporting and reading back: the i-th row reads back as a record with
   * every header field, equal to the i-th record on each of its fields and
   * empty on the fields it lacks.
   */
  lemma CsvRoundTrip(data: seq<Record>, table: CsvTable, i: int)
    requires IsCsvOf(data, table) && 0 <= i < |data|
    ensures forall k :: k in ReadRow(table.header, table.rows[i]) <==> k in UnionKeys(data)
    ensures forall k :: k in data[i] ==>
              k in ReadRow(table.header, table.rows[i]) && ReadRow(table.header, table.rows[i])[k] == data[i][k]
    ensures forall k :: k in ReadRow(table.header, table.rows[i]) && k !in data[i] ==>
              ReadRow(table.header, table.rows[i])[k] == ""
  {
    RowRoundTrip(table.header, data[i]);
    forall k | k in data[i] ensures k in UnionKeys(data) {
      UnionKeysMembership(data, k);
    }
  }
}
