# Sample-data generator and S3-to-RDS ETL, modelled in Dafny

The system has two AWS Lambda handlers that share the bucket `my-lambda-stack`.

- The **generator** (`01-Compute/lambda-functions/app.py`) builds 100 rows of
  fake customer orders. It derives each email from the customer's name, names
  the object `test_<YYYYmmdd_HHMMSS>.txt` after the UTC time, uploads it, and
  answers with a JSON body that names the upload.
- The **ETL handler** (`my-lambda/2_etl_lambda/etl_s3_to_rds.py`) works in five steps:
  - it picks the most recently modified `.txt`/`.csv` object under `data/`;
  - it cleans the table: it drops incomplete rows, then rows with a zero Age,
    Order Quantity or Price, lower-cases Email, title-cases City and adds
    Total = Order Quantity × Price;
  - it loads the table into the database;
  - it sums Total per city and keeps the ten largest for a bar chart;
  - it uploads the chart under `analytics/top_cities_<basename with .csv replaced by .png>`.

The model has eleven modules.

| module | role |
|---|---|
| `Results`, `Seqs` | `Option`/`Result` types; a stable filter (the shape of a pandas boolean mask) and its subsequence lemmas |
| `PyStr` | the Python `str` methods the handlers use: `split()`, `lower()`, `title()`, `endswith`, `replace`, `split('/')[-1]`, `in` |
| `Lambda` | the bucket name and the handler response |
| `EtlExtract`, `EtlTransform`, `EtlSummary`, `EtlHandler` | the four ETL steps and the handler that chains them |
| `GeneratorTable`, `TimestampKey`, `GeneratorHandler` | the generated table, the object key and the generator handler |

The cleaning step is a `method` with the loop over the three numeric columns. Its
specification is the function `Cleaned`. The other steps compute values and
are functions.

Price differs between the two handlers:
- in the ETL table it is a `real`;
- in the generated table it is an integer number of cents, because
  `np.round(..., 2)` is modelled exactly.

Three behaviours of the code worth knowing:
- **Price bounds.** A generated Price can be exactly 100.00. Rounding to two
  decimals carries the largest uniform samples up to 100.00, so the range is
  [0, 100], not the half-open [0, 100) that `uniform` draws from.
  `PriceReachesHundred` shows this.
- **Choice among ties.** "The latest file" is the *first* listed candidate
  with the greatest `LastModified`, because Python's `max` keeps the first
  maximal element. `SelectLatestIsFirstMaximal` states this.
- **Chart key for `.txt` sources.** The chart key only replaces `.csv`. For a
  `.txt` source, which is what the generator writes, the chart is stored
  under a key ending in `.txt` (`ChartKeyOfTxt`).

## Model

| member | source | states |
|---|---|---|
| EtlExtract.SelectLatest | my-lambda/2_etl_lambda/etl_s3_to_rds.py:18-25 | fails (no TXT/CSV file) exactly when no listed object ends in `.txt` or `.csv`, a missing `Contents` counting as empty; otherwise the result is one of the listed objects and ends in `.txt` or `.csv` |
| EtlExtract.MaxFrom | my-lambda/2_etl_lambda/etl_s3_to_rds.py:24 | the scan as `max` performs it: the index returned has the greatest `LastModified` and every earlier one is strictly smaller |
| EtlExtract.SelectLatestIsFirstMaximal | my-lambda/2_etl_lambda/etl_s3_to_rds.py:19-25 | the chosen object sits at some listing position; no candidate has a later `LastModified`, and every candidate before it has a strictly earlier one |
| EtlExtract.CandidatePositions | my-lambda/2_etl_lambda/etl_s3_to_rds.py:19-24 | a first maximum among the filtered candidates is a first maximum among the candidates of the original listing |
| EtlExtract.Candidates | my-lambda/2_etl_lambda/etl_s3_to_rds.py:19 | the comprehension keeps exactly the listed objects ending in `.txt` or `.csv`, and no more objects than listed |
| EtlExtract.CandidateAt | my-lambda/2_etl_lambda/etl_s3_to_rds.py:19 | every listed candidate appears in the filtered list, at a known position |
| EtlExtract.NoCandidateMeansFailure | my-lambda/2_etl_lambda/etl_s3_to_rds.py:18-22 | an empty listing, a missing `Contents` or a listing with only other extensions raises the no-file error |
| EtlExtract.LaterOfTwo | my-lambda/2_etl_lambda/etl_s3_to_rds.py:24-25 | of two candidates, the more recently modified one is chosen |
| EtlTransform.Transform | my-lambda/2_etl_lambda/etl_s3_to_rds.py:34-40 | raises the `.str` error exactly when Email or City is missing in every row of a non-empty table, naming Email first; otherwise the loop that runs `dropna` and then the three zero filters yields `Cleaned(df)`: the rows that are complete and non-zero in Age, Order Quantity and Price, in order, enriched |
| EtlTransform.Cleaned | my-lambda/2_etl_lambda/etl_s3_to_rds.py:34-40 | the cleaned table has no more rows than the input; its rows and their content are given by `CleanedIsSubsequence` and `CleanedRows` |
| EtlTransform.BlankColumnEmptiesTable | my-lambda/2_etl_lambda/etl_s3_to_rds.py:34-39 | where `.str` raises, `dropna` would already have left no row |
| EtlTransform.DropStepsKeep | my-lambda/2_etl_lambda/etl_s3_to_rds.py:34-36 | `dropna` followed by the three zero filters equals a single filter on completeness and non-zero values |
| EtlTransform.CleanedRows | my-lambda/2_etl_lambda/etl_s3_to_rds.py:34-40 | every output row has non-zero Age, quantity and Price, a lower-case Email, a title-case City and Total equal to quantity × Price |
| EtlTransform.CleanedIsSubsequence | my-lambda/2_etl_lambda/etl_s3_to_rds.py:34-36 | the output is the enriched input rows at strictly increasing positions; a row is kept exactly when it is complete and non-zero |
| EtlTransform.EnrichAsRow | my-lambda/2_etl_lambda/etl_s3_to_rds.py:34-40 | a well-formed cleaned row, read back, is kept and enriched to itself |
| EtlTransform.CleanedIdempotent | my-lambda/2_etl_lambda/etl_s3_to_rds.py:34-40 | cleaning a cleaned table again changes nothing |
| EtlTransform.ZeroAgeDropped | my-lambda/2_etl_lambda/etl_s3_to_rds.py:34-40 | the row with Age 0 is dropped; the other becomes City "Paris", Email "a@b.com", Total 20.0 |
| EtlSummary.Cities | my-lambda/2_etl_lambda/etl_s3_to_rds.py:53 | the group keys: each city of the table exactly once |
| EtlSummary.Groups | my-lambda/2_etl_lambda/etl_s3_to_rds.py:53 | one group per distinct city |
| EtlSummary.CityTotal | my-lambda/2_etl_lambda/etl_s3_to_rds.py:53 | a city's sum of Total is zero when it has no rows, and not negative when no Total is |
| EtlSummary.GroupsFacts | my-lambda/2_etl_lambda/etl_s3_to_rds.py:53 | the groups have distinct cities, one per city of the table, each carrying the sum of that city's Totals |
| EtlSummary.GroupsConserveTotal | my-lambda/2_etl_lambda/etl_s3_to_rds.py:53 | the group sums add up to the sum of Total over all rows |
| EtlSummary.CityTotalsSumToRowsTotal | my-lambda/2_etl_lambda/etl_s3_to_rds.py:53 | the per-city sums over the city list add up to the table's total |
| EtlSummary.AbsentCityTotal | my-lambda/2_etl_lambda/etl_s3_to_rds.py:53 | a city without rows sums to zero |
| EtlSummary.InsertByTotal | my-lambda/2_etl_lambda/etl_s3_to_rds.py:53 | inserting into a list sorted by descending Total keeps it sorted and adds exactly that element |
| EtlSummary.SortByTotalDesc | my-lambda/2_etl_lambda/etl_s3_to_rds.py:53 | `sort_values(by="Total", ascending=False)`: sorted descending and a permutation of its input |
| EtlSummary.SortKeepsDistinct | my-lambda/2_etl_lambda/etl_s3_to_rds.py:53 | sorting keeps the cities distinct |
| EtlSummary.TopCities | my-lambda/2_etl_lambda/etl_s3_to_rds.py:53-54 | `head(10)` keeps at most ten groups, sorted by descending Total; `TopCitiesSpec` gives its full contents |
| EtlSummary.TopCitiesSpec | my-lambda/2_etl_lambda/etl_s3_to_rds.py:53-54 | `head(10)` holds min(10, number of cities) groups with distinct cities, sorted descending; each holds its city's true total; no city left out has a larger total than any shown |
| EtlHandler.ChartKeyOfCsv | my-lambda/2_etl_lambda/etl_s3_to_rds.py:66 | for a basename `<b>.csv` the chart key is `analytics/top_cities_` + `<b>` (with its own `.csv` replaced) + `.png` |
| EtlHandler.ChartKeyOfTxt | my-lambda/2_etl_lambda/etl_s3_to_rds.py:66 | for a basename `<b>.txt` the chart key keeps the `.txt` ending |
| EtlHandler.ChartKeyWithoutCsv | my-lambda/2_etl_lambda/etl_s3_to_rds.py:66 | a basename without `.csv` is used unchanged after the prefix |
| EtlHandler.ChartKey | my-lambda/2_etl_lambda/etl_s3_to_rds.py:66 | the chart key starts with `analytics/top_cities_` and has no `/` after it; `ChartKeyOfCsv`, `ChartKeyOfTxt` and `ChartKeyWithoutCsv` give it for each kind of name |
| EtlHandler.HandleEtl | my-lambda/2_etl_lambda/etl_s3_to_rds.py:8-71 | fails exactly when no candidate exists (the no-file error) or when the chosen object's rows make `.str` raise (naming the column); otherwise reports the chosen key, the cleaned table loaded, its top cities, the chart key and a 200 response naming the key |
| EtlHandler.SuccessBody | my-lambda/2_etl_lambda/etl_s3_to_rds.py:70 | the success body contains, and ends with, the processed key |
| GeneratorTable.DeriveEmail | 01-Compute/lambda-functions/app.py:19 | raises `IndexError` exactly when the name has fewer than two whitespace-separated words |
| GeneratorTable.EmailOfWords | 01-Compute/lambda-functions/app.py:19 | for words joined by spaces the email is the first two words lower-cased, joined by `.`, followed by `@example.com`; later words are ignored |
| GeneratorTable.EmailOfOneWordFails | 01-Compute/lambda-functions/app.py:19 | a one-word or blank name raises `IndexError` |
| GeneratorTable.JaneDoe | 01-Compute/lambda-functions/app.py:19 | "Jane Doe" gives "jane.doe@example.com" |
| GeneratorTable.EmailShape | 01-Compute/lambda-functions/app.py:19 | a derived email ends in `@example.com` and has no whitespace and no upper-case letter |
| GeneratorTable.DeriveEmails | 01-Compute/lambda-functions/app.py:16-19 | the list comprehension fails exactly when one name fails; otherwise email i is derived from name i |
| GeneratorTable.RandInt | 01-Compute/lambda-functions/app.py:24 | a drawn integer lies in [low, high) |
| GeneratorTable.RandIntCovers | 01-Compute/lambda-functions/app.py:24 | every value in [low, high) can be drawn |
| GeneratorTable.RoundHalfEven | 01-Compute/lambda-functions/app.py:28 | the result is within half a unit of n / d, and on an exact tie it is the even neighbour |
| GeneratorTable.PriceCents | 01-Compute/lambda-functions/app.py:28 | a price is at most 100.00 |
| GeneratorTable.PriceReachesHundred | 01-Compute/lambda-functions/app.py:28 | the largest sample rounds to exactly 100.00 |
| GeneratorTable.PriceTieRoundsToEven | 01-Compute/lambda-functions/app.py:28 | the sample 3.125 (312.5 cents) rounds to the even 3.12 |
| GeneratorTable.RandIntColumn | 01-Compute/lambda-functions/app.py:24-27 | `randint(low, high, size=100)`: 100 values in [low, high), value i mapped from draw i |
| GeneratorTable.PriceColumn | 01-Compute/lambda-functions/app.py:28 | 100 prices between 0.00 and 100.00, price i rounded from draw i |
| GeneratorTable.FakeColumn | 01-Compute/lambda-functions/app.py:16 | 100 values, value i being the i-th draw of the faker |
| GeneratorTable.GenerateSample | 01-Compute/lambda-functions/app.py:13-29 | fails exactly when one of the 100 names has fewer than two words; otherwise every column has 100 entries, Age ∈ [18,65), Order Quantity ∈ [0,10), Price ∈ [0,100.00], Customer i and City i are the i-th faker draws, Age, Order Quantity and Price i come from draw i, and Email i is derived from Customer i |
| TimestampKey.Padded | 01-Compute/lambda-functions/app.py:35 | a `%Y`/`%m`-style field is exactly `width` decimal digits |
| TimestampKey.DigitsValuePadded | 01-Compute/lambda-functions/app.py:35 | a padded field reads back as its number |
| TimestampKey.PaddedDigitsValue | 01-Compute/lambda-functions/app.py:35 | any digit string is the padded form of its value |
| TimestampKey.ObjectKey | 01-Compute/lambda-functions/app.py:35-36 | the key has 24 characters, starts with `test_` and ends with `.txt` |
| TimestampKey.ObjectKeySlices | 01-Compute/lambda-functions/app.py:35-36 | the key's fields sit at fixed positions: year, month, day, `_`, hour, minute, second |
| TimestampKey.ParseObjectKeyOfObjectKey | 01-Compute/lambda-functions/app.py:35-36 | parsing a formatted key gives back the time |
| TimestampKey.ObjectKeyOfParse | 01-Compute/lambda-functions/app.py:35-36 | a key that parses is the formatted form of a valid time |
| TimestampKey.ObjectKeyInjective | 01-Compute/lambda-functions/app.py:35-36 | distinct times give distinct keys |
| GeneratorHandler.JsonEscapePlain | 01-Compute/lambda-functions/app.py:50-53 | `json.dumps` leaves printable ASCII other than `"` and `\` unchanged |
| GeneratorHandler.JsonEscape | 01-Compute/lambda-functions/app.py:50-53 | with `ensure_ascii` the escaped text is printable ASCII and no shorter than the string; `JsonEscapePlain` shows plain text is copied |
| GeneratorHandler.MessageBody | 01-Compute/lambda-functions/app.py:50-53 | the body `json.dumps` writes is printable ASCII and contains the escaped message; `ResponseNamesUpload` gives it exactly |
| GeneratorHandler.UploadMessage | 01-Compute/lambda-functions/app.py:44-51 | the message contains `s3://my-lambda-stack/<key>` and ends with the key |
| GeneratorHandler.ObjectKeyIsPlain | 01-Compute/lambda-functions/app.py:35-36 | an object key needs no JSON escaping |
| GeneratorHandler.UploadMessagePlain | 01-Compute/lambda-functions/app.py:44-51 | the upload message of such a key needs no escaping |
| GeneratorHandler.HandleGenerate | 01-Compute/lambda-functions/app.py:10-54 | fails exactly when the table does; otherwise returns the generated table, the key formatted from the UTC time and status 200 |
| GeneratorHandler.ResponseNamesUpload | 01-Compute/lambda-functions/app.py:44-54 | the body is `{"message": "Sample data generated and uploaded to s3://my-lambda-stack/<key>"}` and contains `s3://my-lambda-stack/<key>` |
| PyStr.Lower | my-lambda/2_etl_lambda/etl_s3_to_rds.py:38 | `str.lower` keeps the length |
| PyStr.LowerShape | my-lambda/2_etl_lambda/etl_s3_to_rds.py:38 | the result has no upper-case letter; it keeps whitespace where it was, changes exactly the upper-case letters, and maps each letter to the same letter |
| PyStr.LowerIdempotent | my-lambda/2_etl_lambda/etl_s3_to_rds.py:38 | lowering twice is lowering once |
| PyStr.Title | my-lambda/2_etl_lambda/etl_s3_to_rds.py:39 | `str.title` keeps the length, upper-cases a letter that follows no cased character and lower-cases every other letter |
| PyStr.TitleFromShape | my-lambda/2_etl_lambda/etl_s3_to_rds.py:39 | the same, for the scan started after a cased or uncased character |
| PyStr.TitleIdempotent | my-lambda/2_etl_lambda/etl_s3_to_rds.py:39 | title-casing twice is title-casing once |
| PyStr.Split | 01-Compute/lambda-functions/app.py:19 | `str.split()` yields non-empty tokens without whitespace; with `SplitSkipsSpace` and `SplitAfterToken` its result is fixed on every string |
| PyStr.SplitSkipsSpace | 01-Compute/lambda-functions/app.py:19 | whitespace before the first token produces no piece |
| PyStr.SplitAfterToken | 01-Compute/lambda-functions/app.py:19 | a maximal run of non-whitespace at the front is the first piece, and splitting goes on after it |
| PyStr.SplitJoinSpace | 01-Compute/lambda-functions/app.py:19 | splitting tokens joined by single spaces gives the tokens back |
| PyStr.SplitWord | 01-Compute/lambda-functions/app.py:19 | one token splits into itself |
| PyStr.SplitBlank | 01-Compute/lambda-functions/app.py:19 | a blank string splits into nothing |
| PyStr.ReplaceAbsent | my-lambda/2_etl_lambda/etl_s3_to_rds.py:66 | `replace` without an occurrence is the identity |
| PyStr.ReplaceAppend | my-lambda/2_etl_lambda/etl_s3_to_rds.py:66 | `replace` distributes over a concatenation no occurrence straddles |
| PyStr.Replace | my-lambda/2_etl_lambda/etl_s3_to_rds.py:66 | `replace` introduces no character absent from the string and the replacement; with `ReplaceOccurrence`, `ReplaceAbsent` and `ReplaceAppend` its result is fixed wherever occurrences cannot overlap, as for `.csv` |
| PyStr.ReplaceOccurrence | my-lambda/2_etl_lambda/etl_s3_to_rds.py:66 | an occurrence of the pattern at the front becomes the replacement, and replacing goes on after it |
| PyStr.LastSegment | my-lambda/2_etl_lambda/etl_s3_to_rds.py:66 | `split('/')[-1]` has no `/`, is a suffix of the key, and begins at the start or just after a `/` |
| PyStr.ContainsMiddle | 01-Compute/lambda-functions/app.py:51 | a string contains anything placed in its middle |
| Seqs.Filter | my-lambda/2_etl_lambda/etl_s3_to_rds.py:34-36 | a boolean mask keeps exactly the elements satisfying it and never lengthens |
| Seqs.FilterIsSubsequence | my-lambda/2_etl_lambda/etl_s3_to_rds.py:34-36 | the mask's result is the input at the strictly increasing positions it keeps, and a position is kept exactly when its element passes |
| Seqs.FilterCompose | my-lambda/2_etl_lambda/etl_s3_to_rds.py:34-36 | two masks in a row are one mask with the conjunction |
| Seqs.FilterAll | my-lambda/2_etl_lambda/etl_s3_to_rds.py:34-36 | a mask every element passes changes nothing |
| Seqs.FilterAppend | my-lambda/2_etl_lambda/etl_s3_to_rds.py:34-36 | masking distributes over concatenation |

## Left out

- S3, the database and the clock are not modelled:
  - The S3 listing is the parameter `contents`: a single `list_objects_v2` page of at most 1000 keys. The handler never asks for the next page, so "latest" means latest within that page.
  - `get_object` followed by `read_csv` is the function parameter `readObject`.
  - The bytes uploaded are not modelled. The report names the key and the table they would hold.
  - `create_engine`, `os.environ['DB_URL']` and `to_sql` are not modelled, nor is any exception they raise (a missing variable, a refused connection). The cleaned table stands for what is loaded into `customer_orders_clean`.
- Parsing is not modelled:
  - CSV decoding and the UTF-8 decode are not modelled.
  - A table missing one of the named columns is not modelled, so pandas' `KeyError` is not either.
  - Column dtypes are modelled only for Email and City, and only in one case: a column missing in every row of a non-empty table, which `.str` refuses (`Transform` fails). A text column whose every value parses as a number is also typed numeric by `read_csv`, and `.str` raises on it too. The model keeps such values as text and does not raise. Numeric columns holding text are not modelled either.
  - The generator's file is `DataFrame.to_string()` output, not CSV. The model does not render it and does not say what `read_csv` makes of it.
- Chart rendering is not modelled: `matplotlib` figure, labels, `savefig` and the `/tmp` path. Only the data passed to `plt.bar` (`TopCities`) and the upload key are modelled.
- `os.chdir("/tmp")`, the local file write and `event`/`context` are not modelled.
- Faker, numpy's generator and `datetime.utcnow()` are parameters:
  - `fakeName`, `fakeCity`, `ageDraw`, `quantityDraw` and `priceDraw` are indexed by call number;
  - `now` is a `UtcTime`.
- RandInt: does not model numpy's bounded-integer algorithm. It maps an arbitrary draw onto [low, high), and `RandIntCovers` shows every value is reachable.
- PriceCents: models `uniform(0, 100)` as 100·k/2^53 for a 53-bit sample k, rounded half to even in exact arithmetic. It ignores double-precision rounding of the product.
- The ETL's Price and Total are exact `real`s, not IEEE doubles.
- PyStr.Lower, PyStr.Title: case mapping covers ASCII letters only. Other characters are unchanged and count as uncased. Python's Unicode case tables are not modelled.
- SortByTotalDesc: the order among groups with equal totals is not specified. pandas' default quicksort does not promise one. The model sorts stably from the group order; `TopCitiesSpec` states only what holds for any tie order.
- Cities: groups appear in order of first appearance, where pandas sorts the keys. After the descending sort only the order of ties depends on this.
- TimestampKey.ValidTime: years are limited to 1–9999. For years before 1000, `%Y` is written here with four digits, where some C libraries write fewer.
- `json.dumps` is modelled only for the one-key object the handler returns, with the default separators and `ensure_ascii`.
- JsonEscapeChar: the escapes for characters other than printable ASCII without `"` and `\` are written out, with the `\uXXXX` and surrogate-pair forms. Their contract only says they are printable ASCII and differ from the character itself. No decoding round trip is proved, because the handler's message never holds such a character (`UploadMessagePlain`).
