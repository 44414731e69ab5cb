# Weather pipeline core, modelled in Dafny

This project models the data path of a weather pipeline for commuter comfort.
The pipeline:

- reads the Korea Meteorological Administration's text feeds: ASOS ground
  observations, PM10 dust and UV radiation;
- turns each data line into a record;
- flattens a JSON API response into rows;
- fuses the three record lists into one row per station and time;
- adds engineered features and a 0–100 commuter comfort score;
- stores raw payloads, parsed records and ML datasets in an S3 bucket under
  date-stamped keys.

The modules follow the repository's files:

| module | models |
|---|---|
| `Text` (`text.dfy`) | the Python `str` operations the code relies on: `strip`, `split(sep)`, `split()`, `startswith`, `endswith`, `replace`, `isdigit`, and string `<` |
| `Numbers` (`numbers.dfy`) | decimal digits; Python `float()` on text; zero-padded `%Y`/`%m`/… fields |
| `Calendar` (`calendar.dfy`) | proleptic Gregorian date-times; day of week (Monday = 0); chronological order |
| `Timestamps` (`timestamps.dfy`) | `datetime.strptime(s, "%Y%m%d%H%M")`, including how the regex behaves on non-fixed-width input; `_parse_datetime`; `_parse_datetime_from_line` |
| `Parsers` (`parsers.dfy`) | `parse_asos_raw`, `parse_pm10_raw`, `parse_uv_raw` |
| `Payload` (`payload.dfy`) | `extract_measurements` |
| `Features` (`features.dfy`) | `add_engineered_features`, `calculate_comfort_score` |
| `Fusion` (`fusion.dfy`) | `create_ml_dataset` |
| `Storage` (`storage.dfy`) | `S3StorageClient` as a class over a key → bytes map; `WeatherDataS3Handler`'s key layout, latest-dataset lookup and inventory |

The three line parsers, the item loop of `extract_measurements`, the merge
loops of `create_ml_dataset` and the object store are methods with loops or
state. Each is proved equal to a specification function, and the properties
are proved about those functions. The per-line logic, the feature formulas and
the key builders are functions.

Inputs the source takes from the environment are parameters:

- The wall clock (`datetime.now`) is the parameter `now`. It is used where the
  parsers fall back to the current time.
- The JSON text of parsed records is passed to `SaveParsedWeatherData`.
- The parquet bytes of a dataset are passed to `SaveMlDataset`.

Where the source raises an exception, the model returns an error value:

- `extract_measurements` returns `Failure(MissingBaseDateTime)`,
  `Failure(BadTimestamp)`, `Failure(NoGetMethod)` or `Failure(NotIterable)`.
- `get_object` on a missing key returns `None`.

Behaviour of the code worth knowing:

- **Day of week of 2025-06-15.** 2025-06-15 is a Sunday, so `is_weekend` holds
  and `is_weekday` does not (`Calendar.JuneFifteenthIsSunday`).
- **All-missing comfort score.** With no temperature and no PM10 the score is
  67.5 on a weekday outside rush hours, not the neutral 50. The temperature
  blend always runs and scores a missing value 100
  (`Features.AllMissingScore`).
- **PM10 grade range.** `pm10_grade` has no grade for 0 or for values above 999
  (`Features.Pm10GradeBins`).
- **ASOS rows are not deduplicated.** Two rows with the same key stay two
  records (`Fusion.AsosNeverMerged`).
- **PM10 and UV merges can erase values.** A later PM10 or UV row for the same
  key overwrites earlier values, even with `None`
  (`Fusion.Pm10OverwriteWithNone`).
- **Where -999 is filtered.** The UV sentinel -999 is removed during fusion,
  not during parsing (`Fusion.UvSentinel`).
- **Bad ASOS values drop the record.** An ASOS value that passes the digit test
  but is not a float (`"1.2.3"`, `"5-2"`) drops the whole record, because of
  the `except: continue` (`Fusion.MalformedAsosDropped`).
- **Where the comfort adjustments come from.** The comfort score's rush-hour,
  weekend and extreme-weather adjustments are always applied. The columns they
  read are always present, because the fused frame always has a temperature
  column.

## Model

| member | source | states |
|---|---|---|
| Text.StripStart | src/data_ingestion/parsers.py:51 | `lstrip` drops exactly a blank prefix: the result is a suffix of the input, what was dropped is all whitespace, and the result does not start with whitespace |
| Text.StripEnd | src/data_ingestion/parsers.py:51 | `rstrip` drops exactly a blank suffix: the result is a prefix of the input, what was dropped is all whitespace, and the result does not end with whitespace |
| Text.StripEmptyIffBlank | src/data_ingestion/parsers.py:52 | `line.strip()` is falsy exactly when the line is all whitespace |
| Text.IndexOf | src/data_ingestion/parsers.py:85 | the index found holds the character, and no earlier position does |
| Text.SplitOn | src/data_ingestion/parsers.py:85 | `split(sep)` gives at least one piece; no piece contains the separator; joining the pieces with the separator gives the input back |
| Text.SplitJoin | src/data_ingestion/parsers.py:85 | splitting a join of separator-free pieces gives the pieces back (the other half of the round trip) |
| Text.SplitOnSeparatorFirst | src/data_ingestion/parsers.py:51 | a text starting with the separator splits into an empty piece followed by the pieces of the rest |
| Text.SplitOnOtherFirst | src/data_ingestion/parsers.py:51 | any other first character joins the first piece of the rest |
| Text.WordLength | src/data_ingestion/parsers.py:56 | the leading run of non-whitespace characters is maximal |
| Text.Words | src/data_ingestion/parsers.py:56 | `split()` yields only non-empty, whitespace-free tokens |
| Text.WordsEmptyIffBlank | src/data_ingestion/parsers.py:56 | `split()` finds no token exactly when the line is all whitespace |
| Text.WordsOfWord | src/data_ingestion/parsers.py:56 | a run of non-whitespace is a single token |
| Text.WordsSplitAtSpace | src/data_ingestion/parsers.py:56 | the tokens around any whitespace character are the tokens of the two sides, in order; with the two lemmas above this makes the tokens exactly the line's maximal non-whitespace runs |
| Text.Without | src/features/feature_builder.py:39 | `replace(c, '')` removes every `c` and keeps every other character |
| Text.LexLeReflexive | src/storage/s3_client.py:119 | string `<=` is reflexive |
| Text.LexLeTotal | src/storage/s3_client.py:119 | any two strings are ordered one way or the other, so `sorted` has a last element |
| Text.LexLeTransitive | src/storage/s3_client.py:119 | string `<=` is transitive |
| Text.LexLeAntisymmetric | src/storage/s3_client.py:119 | strings each `<=` the other are equal |
| Text.LexLtAtPiece | src/storage/s3_client.py:119 | strings that share a prefix and then differ in equally long pieces are ordered by those pieces, whatever follows |
| Numbers.NatToString | src/data_ingestion/parsers.py:15 | `str(n)` is a digit string whose decimal value is `n` |
| Numbers.ZeroPad | src/storage/s3_client.py:74-75 | a zero-padded field is a digit string with value `n`, of the requested width or longer |
| Numbers.DecimalValueAppend | src/data_ingestion/parsers.py:95 | the value of concatenated digits is the first part's value shifted by the second part's length plus the second part's value |
| Numbers.ParseFloatOfDigits | src/features/feature_builder.py:39 | `float()` of an ASCII digit string is its decimal value |
| Numbers.ParseFixedPoint | src/features/feature_builder.py:103 | `float()` of a signed fixed-point text is the number it writes |
| Numbers.ParseSigned | src/features/feature_builder.py:61 | a leading `-` negates what `float()` reads |
| Numbers.ParseFloatRejects | src/features/feature_builder.py:39 | a text with no exponent mark that starts and ends with a digit but is neither `digits` nor `digits.digits` makes `float()` raise |
| Numbers.ParseUnsignedPoint | src/features/feature_builder.py:61 | `whole.frac` reads as `whole + frac / 10^len(frac)` |
| Numbers.DecimalValueBound | src/storage/s3_client.py:74-75 | `n` digits never exceed `10^n - 1` |
| Numbers.DigitsOrder | src/storage/s3_client.py:119 | equally long digit strings compare as text the way their values compare as numbers |
| Calendar.DaysInMonth | src/data_ingestion/parsers.py:15 | every month has 28 to 31 days |
| Calendar.DayOfWeek | src/features/feature_builder.py:168 | `dt.dayofweek` lies in 0..6 |
| Calendar.NextDay | src/features/feature_builder.py:168 | the day after a valid date is a valid date |
| Calendar.NextDayOrdinal | src/features/feature_builder.py:168 | the day after is one day later in the proleptic day count |
| Calendar.NextDayOfWeek | src/features/feature_builder.py:168 | the weekday advances by one, modulo 7, from one day to the next |
| Calendar.YearLength | src/features/feature_builder.py:168 | a year has 366 days when leap and 365 otherwise |
| Calendar.JuneFifteenthIsSunday | src/features/feature_builder.py:177-178 | 2025-06-15 has `dayofweek` 6: a weekend day |
| Calendar.BeforeTrichotomy | src/features/feature_builder.py:146 | chronological order is strict and total |
| Calendar.BeforeTransitive | src/features/feature_builder.py:146 | chronological order is transitive |
| Calendar.OrdinalMonotone | src/features/feature_builder.py:146 | an earlier date-time never has a larger day count |
| Timestamps.Search | src/data_ingestion/parsers.py:151 | `strptime`'s match yields one value per directive, consumes no more than the input and no more than the widest pattern allows |
| Timestamps.Try | src/data_ingestion/parsers.py:151 | a directive that tries a narrower alternative can never consume the full width |
| Timestamps.Strptime | src/data_ingestion/parsers.py:151 | every accepted text gives a valid calendar date-time with second 0 |
| Timestamps.SearchFindsFixed | src/data_ingestion/parsers.py:151 | when every field matches at its full width, the regex takes exactly those fields |
| Timestamps.FullSearchIsFixed | src/data_ingestion/parsers.py:151 | a match that consumes the full width matched every field at its full width |
| Timestamps.MonthPiece | src/data_ingestion/parsers.py:151 | a two-character `%m` matches exactly the digits 01–12, and reads as their value |
| Timestamps.DayPiece | src/data_ingestion/parsers.py:151 | a two-character `%d` matches 01–31 or a space and a digit, and reads as that day |
| Timestamps.HourPiece | src/data_ingestion/parsers.py:151 | a two-character `%H` matches exactly 00–23 |
| Timestamps.MinutePiece | src/data_ingestion/parsers.py:151 | a two-character `%M` matches exactly 00–59 |
| Timestamps.YearPiece | src/data_ingestion/parsers.py:151 | `%Y` matches exactly four digits |
| Timestamps.StrptimeTwelve | src/data_ingestion/parsers.py:150-151 | on twelve characters, `strptime` equals a field-by-field fixed-width decoder |
| Timestamps.Compact | src/data_ingestion/parsers.py:150 | a date-time written as `YYYYMMDDHHMM` has twelve characters |
| Timestamps.CompactRoundTrip | src/data_ingestion/parsers.py:150-151 | parsing a written `YYYYMMDDHHMM` gives back the date-time, to the minute |
| Timestamps.PadLength | src/storage/s3_client.py:74-75 | a number below `10^w` pads to exactly `w` digits |
| Timestamps.FromLineFixed | src/data_ingestion/parsers.py:147-157 | the line decoder: on 12 characters it decodes the fields, on 10 it decodes them after prefixing `20`, and otherwise or on a decoding error it falls back to `now`; it yields a valid time whenever `now` is valid |
| Timestamps.ParseDatetimeFixed | src/data_ingestion/parsers.py:14-16 | an eight-character base date and a four-character base time are decoded field by field |
| Parsers.KeepData | src/data_ingestion/parsers.py:52 | the kept lines are data lines (not `#` comments, not blank) taken from the input, never more |
| Parsers.KeepDataKeepsAll | src/data_ingestion/parsers.py:52 | every data line of the input is kept |
| Parsers.KeepDataSingle | src/data_ingestion/parsers.py:52 | one line is kept exactly when it is a data line |
| Parsers.KeepDataAppend | src/data_ingestion/parsers.py:52 | filtering distributes over concatenation, so the kept lines stay in input order |
| Parsers.Pm10Field | src/data_ingestion/parsers.py:90-99 | the PM10 value is an integer exactly when the stripped field is all digits, is then the field's decimal value, and is `None` otherwise |
| Parsers.Outcomes | src/data_ingestion/parsers.py:55 | each data line is parsed on its own |
| Parsers.ParseRaw | src/data_ingestion/parsers.py:54-67 | the parse loop appends exactly the records of the data lines, in order, never more than the data lines |
| Parsers.ParseAsosRaw | src/data_ingestion/parsers.py:48-73 | `parse_asos_raw` returns the ASOS records of the data lines |
| Parsers.ParsePm10Raw | src/data_ingestion/parsers.py:76-115 | `parse_pm10_raw` returns the PM10 records of the data lines |
| Parsers.ParseUvRaw | src/data_ingestion/parsers.py:118-144 | `parse_uv_raw` returns the UV records of the data lines |
| Parsers.GatherStep | src/data_ingestion/parsers.py:55-67 | one more line appends that line's record, if any |
| Parsers.GatherAppend | src/data_ingestion/parsers.py:55-67 | parsing two blocks of lines gives the concatenation of their results |
| Parsers.PresentAppend | src/data_ingestion/parsers.py:55-67 | collecting the records of two blocks gives the concatenation of their records |
| Parsers.ParseLineKeepsLine | src/data_ingestion/parsers.py:66 | each record keeps its line in `raw_line` |
| Parsers.GatherOrigin | src/data_ingestion/parsers.py:55-67 | every record comes from one of the lines and is what that line parses to |
| Parsers.ParsedOrigin | src/data_ingestion/parsers.py:51-67 | every record's `raw_line` is a data line of the payload, and re-parsing it gives the record |
| Parsers.AsosLineFields | src/data_ingestion/parsers.py:56-67 | an ASOS line gives a record exactly when it has at least three tokens; the station is token 2, the value is token 3 as text, the time is decoded from token 1 |
| Parsers.Pm10LineFields | src/data_ingestion/parsers.py:85-109 | a PM10 line gives a record exactly when it has at least three comma fields; station and time are stripped; the value is an integer only for all-digit fields; a non-blank time field is stripped and decoded as a line timestamp, a blank one falls back to `now` |
| Parsers.UvLineFields | src/data_ingestion/parsers.py:126-138 | a UV line gives a record exactly when it has at least five tokens; UVB, UVA and EUV are tokens 3–5 as text |
| Parsers.ParseLineValidTime | src/data_ingestion/parsers.py:61 | every record's time is a valid date-time when `now` is |
| Parsers.GatherValidTimes | src/data_ingestion/parsers.py:55-67 | all records of a payload carry valid times |
| Parsers.QuietNotData | src/data_ingestion/parsers.py:52 | a comment or blank line is never a data line |
| Parsers.QuietStripStart | src/data_ingestion/parsers.py:51 | stripping a text whose lines are all comments or blank leaves such a text |
| Parsers.QuietPrefix | src/data_ingestion/parsers.py:51 | cutting the end off such a text leaves such a text |
| Parsers.KeepNothing | src/data_ingestion/parsers.py:52 | lines that are all comments or blank keep nothing |
| Parsers.QuietPayload | src/data_ingestion/parsers.py:51-52 | a payload made only of comments and blank lines parses to no records |
| Payload.Render | src/data_ingestion/parsers.py:15 | scalars format to text; lists and mappings format to text no timestamp matches |
| Payload.ResponseBody | src/data_ingestion/parsers.py:22 | looking up the response body can only fail because a non-mapping has no `get` |
| Payload.ObservedAt | src/data_ingestion/parsers.py:24-30 | the observation time fails only for missing or empty metadata or for an unparsable timestamp |
| Payload.Items | src/data_ingestion/parsers.py:23-33 | iterating a list of mappings visits each of them; an empty string or mapping visits nothing |
| Payload.RowsOf | src/data_ingestion/parsers.py:32-42 | one row per item, each stamped with the same observation time |
| Payload.ExtractMeasurements | src/data_ingestion/parsers.py:19-45 | the loop returns exactly the specified rows or error, and every row carries the response's observation time |
| Payload.AppendRows | src/data_ingestion/parsers.py:32-42 | the loop appends one row per item, in order |
| Payload.MissingMetadata | src/data_ingestion/parsers.py:27-28 | the missing-metadata error is raised exactly when the response and body are mappings and the base date or base time is falsy |
| Payload.OneRowPerItem | src/data_ingestion/parsers.py:32-42 | a successful extraction has one row per item, built from that item, all at the same time |
| Payload.RowDefaults | src/data_ingestion/parsers.py:35-39 | missing station, category and value become `None`; a missing unit becomes `""` |
| Payload.ObservedAtFixed | src/data_ingestion/parsers.py:14-30 | eight-digit dates and four-digit times are decoded field by field |
| Features.Bin | src/features/feature_builder.py:191-195 | `pd.cut` with right-closed bins labels a value exactly when it lies in `(first, last]`, with the label of the bin that holds it |
| Features.BinEdges | src/features/feature_builder.py:191-195 | every edge of increasing bins lies between the first and the last |
| Features.TempCategoryBins | src/features/feature_builder.py:191-195 | `temp_category` labels exactly the temperatures in `(-999, 999]`, with the five labels on the bins `(-999,0]`, `(0,10]`, `(10,20]`, `(20,30]`, `(30,999]` |
| Features.Pm10GradeBins | src/features/feature_builder.py:226-230 | `pm10_grade` labels exactly the values in `(0, 999]`, with the four grades on `(0,30]`, `(30,80]`, `(80,150]`, `(150,999]` |
| Features.Season | src/features/feature_builder.py:181-186 | Dec–Feb is winter, Mar–May spring, Jun–Aug summer, and the rest autumn |
| Features.Region | src/features/feature_builder.py:216-221 | the region is central, south, east or west exactly for station ids starting with 1, 2, 3 or 9, and other otherwise |
| Features.TempComfort | src/features/feature_builder.py:198 | `temp_comfort` is missing exactly when the temperature is, never exceeds 20, and is 20 only at 20 °C |
| Features.TemperatureScore | src/features/feature_builder.py:259-266 | the temperature score lies in 10..100 |
| Features.Pm10Score | src/features/feature_builder.py:271-278 | the PM10 score lies in 10..90 |
| Features.Clip | src/features/feature_builder.py:294 | `np.clip` to [0, 100] keeps in-range values and clamps the rest to the nearer end |
| Features.ComfortScore | src/features/feature_builder.py:252-296 | the comfort score lies in [0, 100] |
| Features.AllMissingScore | src/features/feature_builder.py:255-294 | with no temperature and no PM10, on a weekday outside rush hours, the score is 67.5 |
| Features.MildBeatsHot | src/features/feature_builder.py:259-291 | with everything else fixed, 18 °C scores higher than 40 °C |
| Features.AdjustmentSizes | src/features/feature_builder.py:281-287 | rush hour costs exactly 10 points before clipping, a weekend adds exactly 5, and rush hour never raises the clipped score |
| Features.ComfortMonotone | src/features/feature_builder.py:267-294 | higher temperature and PM10 scores never lower the comfort score |
| Features.Engineer | src/features/feature_builder.py:167-247 | each row keeps its base columns; rush hour is morning or evening rush; weekday is not weekend; hour, weekday and month are in range; comparisons on missing values are false; the score is in [0, 100] |
| Features.Thresholds | src/features/feature_builder.py:201-244 | heating below 10 °C, cooling above 25 °C, extreme below 0 or above 30 °C, mask above 50, outdoor-ok at or below 80, UV present above 0, sun protection above 0.02 |
| Features.AddEngineeredFeatures | src/features/feature_builder.py:157-249 | an empty frame is returned unchanged; otherwise every row gains the engineered columns, with the row count and base values kept |
| Features.EngineeredRows | src/features/feature_builder.py:157-249 | row i of the engineered table is `Engineer` of input row i, so every per-row fact of `Features.Engineer` holds of it |
| Fusion.AsosTemperature | src/features/feature_builder.py:36-47 | an ASOS value drops the record exactly when it passes the digit test but `float()` rejects it; it becomes `None` when missing, zero, empty or not digit-like; otherwise it is `float()` of the text |
| Fusion.UvValue | src/features/feature_builder.py:100-107 | a UV value is `None` when it is not numeric or is the -999 sentinel; otherwise it is the number |
| Fusion.FirstMatch | src/features/feature_builder.py:67-71 | the merge finds the first record with the same station and time |
| Fusion.FirstMatchIs | src/features/feature_builder.py:67-71 | any index before which no record matches, and which matches or is the end, is the one found |
| Fusion.Step | src/features/feature_builder.py:33-136 | one source row adds at most one record |
| Fusion.Fold | src/features/feature_builder.py:33-136 | a pass over a source never removes records and adds at most one per row |
| Fusion.Insert | src/features/feature_builder.py:146 | inserting into the sorted rows adds exactly that row |
| Fusion.SortRows | src/features/feature_builder.py:146 | sorting is a permutation |
| Fusion.KeyLeTotal | src/features/feature_builder.py:146 | the `(datetime, station_id)` order is total |
| Fusion.KeyLeTransitive | src/features/feature_builder.py:146 | the `(datetime, station_id)` order is transitive |
| Fusion.InsertSorted | src/features/feature_builder.py:146 | inserting keeps rows sorted |
| Fusion.SortRowsSorted | src/features/feature_builder.py:146 | sorted output is ordered by datetime, then station |
| Fusion.FoldStep | src/features/feature_builder.py:33-136 | one more source row is one more merge step |
| Fusion.FindRecord | src/features/feature_builder.py:66-71 | the scan loop stops at the first matching record, or at the end |
| Fusion.Absorb | src/features/feature_builder.py:33-136 | each merge loop computes the specified fold |
| Fusion.CreateMlDataset | src/features/feature_builder.py:10-154 | `create_ml_dataset` returns the specified frame, with no more rows than input rows |
| Fusion.MlDatasetShape | src/features/feature_builder.py:140-154 | the dataset has no more rows than the inputs and is sorted by datetime then station; an empty dataset has the seven base columns, a non-empty one also has the engineered columns; no input at all gives an empty frame |
| Fusion.MlDatasetContents | src/features/feature_builder.py:140-154 | the dataset rows are a permutation of the dated fused records: none lost, none duplicated |
| Fusion.DatedKeepsDated | src/features/feature_builder.py:145 | `dropna` keeps exactly the records that have a datetime |
| Fusion.AsosNeverMerged | src/features/feature_builder.py:33-47 | two ASOS rows with the same key give two records |
| Fusion.MalformedAsosDropped | src/features/feature_builder.py:39-47 | `"1.2.3"` and `"5-2"` pass the digit test, make `float()` raise, and the record is skipped |
| Fusion.Pm10Merge | src/features/feature_builder.py:59-83 | a PM10 row sets `pm10` on the first record with its key and changes nothing else, or appends a new record |
| Fusion.UvMerge | src/features/feature_builder.py:95-136 | a UV row sets the three UV fields on the first record with its key and changes nothing else, or appends a new record |
| Fusion.Pm10OverwriteWithNone | src/features/feature_builder.py:59-71 | a later non-numeric PM10 row for the same key erases an earlier value |
| Fusion.UvSentinel | src/features/feature_builder.py:104-105 | -999, written as an integer or as a fixed-point text, becomes `None` |
| Storage.EncodeChar | src/storage/s3_client.py:44-45 | a code point is one to four UTF-8 bytes |
| Storage.Utf8 | src/storage/s3_client.py:44-45 | the encoding is one to four bytes per character |
| Storage.DecodeEncodeChar | src/storage/s3_client.py:44-45 | the lead byte gives the length of the encoding, and the bytes carry the code point |
| Storage.DecodeUtf8 | src/storage/s3_client.py:44-45 | decoding a text's UTF-8 gives the text back |
| Storage.ObjectStore.constructor | src/storage/s3_client.py:16-40 | an existing bucket is attached with all the objects it holds; a missing one is created empty |
| Storage.ObjectStore.PutObject | src/storage/s3_client.py:42-47 | the key now maps to the body (text as UTF-8), no other key changes, and the key is returned |
| Storage.ObjectStore.GetObject | src/storage/s3_client.py:49-52 | a stored key yields its bytes; a missing key yields nothing |
| Storage.ObjectStore.ListObjects | src/storage/s3_client.py:54-59 | the listing holds exactly the keys under the prefix, each once |
| Storage.ObjectStore.DeleteObject | src/storage/s3_client.py:61-63 | the key is removed and nothing else changes |
| Storage.DistinctCard | src/storage/s3_client.py:54-59 | a listing without repetitions is as long as the set of its keys |
| Storage.ParquetKeys | src/storage/s3_client.py:106-116 | the candidate datasets lie under `ml_dataset/` |
| Storage.GreatestUnique | src/storage/s3_client.py:119 | the last key of the sorted candidates is unique |
| Storage.WeatherDataHandler.constructor | src/storage/s3_client.py:69-70 | the handler works on the given bucket |
| Storage.WeatherDataHandler.SaveRawWeatherData | src/storage/s3_client.py:72-80 | the payload's UTF-8 is stored under `raw/{type}/{YYYY/MM/DD}/{HHMMSS}.txt`, which is returned |
| Storage.WeatherDataHandler.SaveParsedWeatherData | src/storage/s3_client.py:82-91 | the JSON's UTF-8 is stored under `processed/{type}/{YYYY/MM/DD}/{HHMMSS}.json`, which is returned |
| Storage.WeatherDataHandler.SaveMlDataset | src/storage/s3_client.py:93-103 | the parquet bytes are stored under `ml_dataset/{YYYY/MM/DD}/dataset_{HHMMSS}.parquet`, which is returned |
| Storage.WeatherDataHandler.LoadLatestMlDataset | src/storage/s3_client.py:105-123 | nothing is returned exactly when no `.parquet` key lies under `ml_dataset/`; otherwise the bytes of the greatest such key are returned |
| Storage.WeatherDataHandler.GetDataInventory | src/storage/s3_client.py:125-133 | each count is the number of keys under its prefix, the total is the number of keys, and the three counts never exceed the total |
| Storage.FieldOrder | src/storage/s3_client.py:74-75 | zero-padded fields of one width order as text the way their values order as numbers |
| Storage.FieldsOrder | src/storage/s3_client.py:74-76 | keys built from the same separators around fixed-width fields order by their fields, first field first |
| Storage.MlKeyOrder | src/storage/s3_client.py:95-119 | a dataset saved at an earlier time gets a smaller key |
| Storage.MlKeyIsCandidate | src/storage/s3_client.py:97-116 | every dataset key is a candidate for loading |
| Storage.LatestSaveIsLoaded | src/storage/s3_client.py:93-123 | when every stored dataset was saved at an earlier time, the dataset just saved is the one loaded |
| Storage.InventoryBound | src/storage/s3_client.py:125-133 | raw, processed and dataset keys lie under disjoint prefixes, so together they never exceed the total |

## Left out

- `created_at`: the wall-clock stamp on every row is not modelled. Elsewhere
  the clock is the parameter `now`.
- Time zones: `tzinfo=UTC` and `pd.to_datetime(utc=True)` are left out.
  Date-times carry no zone, and every time is UTC.
- Microseconds are left out. Date-times go down to seconds.
- Logging is left out: `_logger` calls and `print`.
- The parsers' `try/except` that returns `[]` is left out. No operation
  modelled in the parse loop can raise.
- `S3StorageClient`'s boto3 client is left out: credentials, endpoint and
  content types. What `head_bucket` finds is a parameter of the constructor
  (the existing objects, or none when `create_bucket` makes a new bucket). The
  bucket is a map from key to bytes.
- Listing paging is left out. `list_objects_v2` returns at most 1000 keys per
  call and the source does not page. The model lists every key, and in no
  particular order.
- `get_object` errors other than a missing key are left out.
- Serialisation formats are left out: `json.dumps` of the parsed records and
  `to_parquet`/`read_parquet` of the dataset. Their bytes or text are
  parameters, and `LoadLatestMlDataset` returns the stored bytes rather than a
  DataFrame.
- `load_latest_ml_dataset`'s `days_back` is accepted and ignored, as in the
  source.
- XCom hand-off between tasks is not part of this model. The fusion input rows
  are generic cells: an optional date-time and a text, integer or missing
  value. Other modules of the repository (`kma_client.py`,
  `weather_processor.py`, the DAG, configuration) are not part of this model.
- pandas dtype coercion is left out. A missing cell (`NaN`/`None`) is
  `Absent`, and numbers are reals.
- `str(station_id)` is left out. Station ids are already strings.
- A missing datetime never matches another missing datetime in the merge scan
  (`NaT != NaT`). Such rows are removed by `dropna` before anything else reads
  them.
- `Fusion.SortRows`: it is proved sorted and a permutation, but it is not
  proved stable.
- `Numbers.ParseFloat`: it models `float()` on ASCII decimal text only:
  optional sign, digits with an optional point, and an optional exponent.
  Underscores, `inf`/`nan`, non-ASCII digits and IEEE rounding are left out;
  values are exact reals.
- `Text.IsDigitString`: `str.isdigit()` is modelled on ASCII digits only.
  Other Unicode digits are left out.
- `Payload.Json`: its numbers are integers only. Floating-point JSON numbers
  are left out, because `f"{x}"` of a float is not modelled.
- `Storage.DatePath`: `%Y` is written zero-padded to four digits. Some
  platforms' `strftime` writes years below 1000 without padding.
- `Features.ComfortScore`: it assumes the temperature, PM10, rush-hour,
  weekend and extreme columns are always present. The fused frame always has
  them, so the source's `if column in df.columns` guards always hold.
