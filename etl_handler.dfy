/** The ETL handler: select the newest text/CSV object, clean its rows (the
    table written to `customer_orders_clean`), summarise sales per city and
    name the chart object. Storage, database and plotting calls are not
    modelled; reading and parsing the selected object is the parameter
    `readObject`. */
module EtlHandler {
  import opened Results
  import opened PyStr
  import opened Lambda
  import opened EtlExtract
  import opened EtlTransform
  import opened EtlSummary

  const ChartPrefix: string := "analytics/top_cities_"

  /** The key the chart is uploaded under: the prefix, then the last
      '/'-separated piece of the source key with ".csv" replaced by ".png".
      The chart always lands directly under "analytics/": the part after the
      prefix has no '/'. */
  function ChartKey(sourceKey: string): (key: string)
    ensures StartsWith(key, ChartPrefix)
    ensures '/' !in key[|ChartPrefix|..]
  {
    var name := Replace(LastSegment(sourceKey, '/'), ".csv", ".png");
    assert (ChartPrefix + name)[|ChartPrefix|..] == name;
    assert '/' !in ".png";
    ChartPrefix + name
  }

  /** No occurrence of ".csv" can start before a '.' and run past it. */
  lemma NoCsvAcrossDot(b: string, t: string)
    requires t != [] && t[0] == '.'
    ensures forall j :: |b| - 4 < j < |b| ==> !OccursAt(b + t, ".csv", j)
  {
    forall j | |b| - 4 < j < |b|
      ensures !OccursAt(b + t, ".csv", j)
    {
      if 0 <= j && j + 4 <= |b| + |t| {
        assert (b + t)[j..j + 4][|b| - j] == t[0];
      }
    }
  }

  /** A source named `<dirs>/<base>.csv` gets a chart named
      `analytics/top_cities_<base>.png`, with any ".csv" inside `base`
      replaced as well. */
  lemma ChartKeyOfCsv(sourceKey: string, base: string)
    requires LastSegment(sourceKey, '/') == base + ".csv"
    ensures ChartKey(sourceKey) == ChartPrefix + Replace(base, ".csv", ".png") + ".png"
  {
    NoCsvAcrossDot(base, ".csv");
    ReplaceAppend(base, ".csv", ".csv", ".png");
    assert ".csv"[..4] == ".csv" && ".csv"[4..] == [];
  }

  /** A source named `<dirs>/<base>.txt` keeps its ".txt" extension. */
  lemma ChartKeyOfTxt(sourceKey: string, base: string)
    requires LastSegment(sourceKey, '/') == base + ".txt"
    ensures ChartKey(sourceKey) == ChartPrefix + Replace(base, ".csv", ".png") + ".txt"
  {
    NoCsvAcrossDot(base, ".txt");
    ReplaceAppend(base, ".txt", ".csv", ".png");
    TxtKeptByReplace();
  }

  lemma TxtKeptByReplace()
    ensures Replace(".txt", ".csv", ".png") == ".txt"
  {
    forall j
      ensures !OccursAt(".txt", ".csv", j)
    {
      if 0 <= j && j + 4 <= 4 {
        assert ".txt"[j..j + 4] == ".txt";
      }
    }
    ReplaceAbsent(".txt", ".csv", ".png");
  }

  /** Without ".csv" in its last piece, the source name is copied as it is. */
  lemma ChartKeyWithoutCsv(sourceKey: string)
    requires forall j :: !OccursAt(LastSegment(sourceKey, '/'), ".csv", j)
    ensures ChartKey(sourceKey) == ChartPrefix + LastSegment(sourceKey, '/')
  {
    ReplaceAbsent(LastSegment(sourceKey, '/'), ".csv", ".png");
  }

  /** What one successful run produces: the object processed, the table that
      replaces `customer_orders_clean`, the chart data, the chart key and the
      response. */
  datatype EtlReport = EtlReport(
    sourceKey: string,
    loadedTable: seq<CleanRow>,
    topCities: seq<CitySales>,
    chartKey: string,
    response: Response)

  /** The response body of a successful run: it names the processed object
      and ends with its key. */
  function SuccessBody(sourceKey: string): (body: string)
    ensures Contains(body, sourceKey)
    ensures EndsWith(body, sourceKey)
  {
    var lead := "ETL complete, data loaded and chart saved for ";
    ContainsMiddle(lead, sourceKey, []);
    assert lead + sourceKey + [] == lead + sourceKey;
    lead + sourceKey
  }

  /** Why a run raises: no file to process, or a text column `.str` refuses. */
  datatype EtlError = ExtractFailed(extract: ExtractError) | TransformFailed(transform: TransformError)

  /** The transform raises on these rows. */
  predicate TransformRaises(rows: seq<Row>)
  {
    BlankColumn(rows, EmailColumn) || BlankColumn(rows, CityColumn)
  }

  /** One invocation. `contents` is the `Contents` field of the listing
      (absent when the prefix is empty). */
  method HandleEtl(contents: Option<seq<S3Object>>, readObject: string -> seq<Row>)
    returns (r: Result<EtlReport, EtlError>)
    ensures r.Failure? <==>
      (forall o :: o in Listed(contents) ==> !IsCandidate(o)) ||
      (SelectLatest(contents).Success? && TransformRaises(readObject(SelectLatest(contents).value.key)))
    ensures (forall o :: o in Listed(contents) ==> !IsCandidate(o)) ==> r == Failure(ExtractFailed(NoSourceObject))
    ensures SelectLatest(contents).Success? ==>
      var key := SelectLatest(contents).value.key;
      var raw := readObject(key);
      var table := Cleaned(raw);
      if TransformRaises(raw) then
        r == Failure(TransformFailed(NoStringValues(if BlankColumn(raw, EmailColumn) then EmailColumn else CityColumn)))
      else
        r == Success(EtlReport(key, table, TopCities(table), ChartKey(key), Response(StatusOk, SuccessBody(key))))
  {
    var latest := SelectLatest(contents);
    if latest.Failure? {
      return Failure(ExtractFailed(latest.error));
    }
    var key := latest.value.key;
    var raw := readObject(key);
    var cleaned := Transform(raw);
    if cleaned.Failure? {
      return Failure(TransformFailed(cleaned.error));
    }
    var df := cleaned.value;
    var summary := TopCities(df);
    var chart := ChartKey(key);
    r := Success(EtlReport(key, df, summary, chart, Response(StatusOk, SuccessBody(key))));
  }
}
