# Totesys ETL pipeline core, modelled in Dafny

The pipeline extracts the tables of the Totesys database into CSV files in a
raw-data S3 bucket. A transform step then converts each CSV to parquet and
stores it in a processed-data bucket, under a time-partition prefix. This
project models the sequential logic inside that glue code. Every external
service is replaced by a value or a function parameter.

- `Text`: the Python string operations the code relies on, written on
  `seq<char>`: `startswith`, `endswith`, `s[-n:]`, `s[:-n]`, `split` on one
  character, `join`, and `str()` of a non-negative integer.
- `Storage`: byte strings, `Option`, an `Outcome` that is either a value or a
  raised exception with its message, the two bucket-name prefixes, and scans
  of a bucket listing by prefix.
- `TransformUtils` models `finds_data_buckets` and `convert_csv_to_parquet`.
  - `FindsDataBuckets` is the loop itself: two flags, the latest name of each
    kind, and a break. It is proved equal to the declarative `Locate`.
  - `Locate` states the result through the "horizon": the shortest prefix of
    the listing that holds both kinds of name.
  - `ConvertCsvToParquet` covers the extension guard, the not-found branch,
    and the case where the locator's error string is unpacked.
  - Storage reads are `getObject`. The polars conversion is `toParquet`.
- `ExtractUtils` models these operations:
  - `create_time_based_path`, with the clock's reading as a parameter;
  - `connect_to_bucket`;
  - `query_db`, where `run` stands for the database connection;
  - the writes and keys of `create_and_upload_csv`, where `serialize` is the
    CSV writer and `accepts` says whether a put succeeds;
  - the change-set assembly of `compare_csvs`. Its inputs are the previous
    snapshot's rows and the tuples that `re.findall` returns.
- `Transform`: the transform stage's `lambda_handler`. It locates the buckets,
  then uploads the eleven tables in order and stops at the first failed put.
  `putSucceeds` says whether a put succeeds. The uploads are returned as a
  sequence of attempts.

Python's ValueError from unpacking the locator's error string into two names
is a distinct outcome, not a precondition. In `ConvertCsvToParquet` it is
`UnpackError`. In `LambdaHandler` it is `HandlerUnpackError`.

The scan in `finds_data_buckets` does not keep the first raw-prefixed name.
Until both kinds have been seen, a later raw-prefixed name overwrites an
earlier one. The model follows the code: `LocateKeepsLaterRawName` shows a
listing where the second raw-prefixed name is the one returned. A description
of the locator as "first match" holds only for `connect_to_bucket`, which
returns from inside its loop.

## Model

| member | source | states |
|---|---|---|
| TransformUtils.FindsDataBuckets | src/utils/transform_utils.py:18-43 | the scan with two flags, the latest name of each kind and a break returns exactly the declarative outcome `Locate` |
| TransformUtils.LocateOutcomes | src/utils/transform_utils.py:33-43 | no name of either kind gives "No buckets found"; only processed names give "No raw data bucket found"; only raw names give "No processed data bucket found"; a pair comes back exactly when both kinds occur; the pair is (raw-prefixed, processed-prefixed) and both are names from the listing |
| TransformUtils.LocateIgnoresLaterNames | src/utils/transform_utils.py:23-31 | once both kinds have been seen the scan stops, so replacing everything after that point leaves the result unchanged |
| TransformUtils.LocateFindsOnlyRawBucket | src/utils/transform_utils.py:24-43 | with a single raw-prefixed name and some processed-prefixed name, that raw name is the one returned |
| TransformUtils.LocateKeepsLaterRawName | src/utils/transform_utils.py:23-29 | the listing [raw-a, raw-b, processed-c] yields raw-b: a later raw name overwrites an earlier one before the break |
| TransformUtils.HorizonMinimal | src/utils/transform_utils.py:30-31 | when both kinds occur, the stopping point is the first index at which both have been seen |
| TransformUtils.SeenHasKinds | src/utils/transform_utils.py:20-29 | each kind occurs before the stopping point exactly when it occurs in the whole listing |
| Storage.PrefixesExclusive | src/utils/transform_utils.py:24-27 | no bucket name carries both prefixes, so one name never sets both flags |
| TransformUtils.ConvertCsvToParquet | src/utils/transform_utils.py:57-69 | a name not ending in ".csv" gives "<name> is not a .csv file."; a ".csv" name with no located buckets gives the unpacking error; otherwise a missing object gives "csv file not found" and a present one gives its parquet encoding |
| TransformUtils.RejectionIsStorageFree | src/utils/transform_utils.py:57-60 | the rejection of a non-".csv" name does not depend on the listing, the storage or the encoder |
| Text.LastFourIsCsvSuffix | src/utils/transform_utils.py:57 | the slice test on the last four characters is exactly "ends in .csv", names shorter than four characters included |
| ExtractUtils.CreateTimeBasedPath | src/utils/extract_utils.py:34-56 | the step-by-step zero-padding yields `TimePath`: unpadded year, then two-digit month, day, hour, minute and second |
| ExtractUtils.ZeroPadIsTwoDigits | src/utils/extract_utils.py:44-55 | prefixing "0" when `str(n)` has one character gives exactly two digits for every n below 100 |
| ExtractUtils.TimePathShape | src/utils/extract_utils.py:56 | the path is 16 characters longer than the year, ends in "/", has its separators at fixed places, and is 20 characters long for a four-digit year |
| ExtractUtils.TimePathPieces | src/utils/extract_utils.py:56 | cutting the path at "/" gives the year, month and day texts, the time of day and a final empty piece |
| ExtractUtils.TimePathInjective | src/utils/extract_utils.py:44-56 | different instants give different paths |
| Text.DecimalLength | src/utils/extract_utils.py:44-55 | `str(n)` has one character exactly when n is below 10, two from 10 to 99 and four from 1000 to 9999 |
| Text.ValueOfDecimal | src/utils/extract_utils.py:56 | reading the decimal text of a number back gives the number |
| ExtractUtils.ConnectToBucket | src/utils/extract_utils.py:92-97 | raises "No raw data bucket found" exactly when no name starts with the raw prefix; otherwise returns the first such name in listing order |
| ExtractUtils.ColumnQuery | src/utils/extract_utils.py:121 | the column query is the fixed information-schema query with the table name quoted before "';", and the name can be read back from it |
| ExtractUtils.TableQuery | src/utils/extract_utils.py:127 | the content query is "SELECT * FROM " then the table name then ";", and the name can be read back from it |
| ExtractUtils.QueriesInjective | src/utils/extract_utils.py:121-128 | different tables are asked for with different column queries and different content queries |
| ExtractUtils.QueryDb | src/utils/extract_utils.py:121-129 | the result has one row more than the table query; its first row is the first field of every column row, in order; the table rows follow unchanged |
| ExtractUtils.CreateAndUploadCsv | src/utils/extract_utils.py:139-161 | on a first call the same bytes go to the source key and then to the differences key, and a rejected put raises "Failed to upload file" and stops; otherwise only the local file under /tmp is written and nothing raises |
| ExtractUtils.SourceKey | src/utils/extract_utils.py:148 | the key lies in the source folder, ends in "_new.csv", and the table name is what lies between them |
| ExtractUtils.DifferencesKey | src/utils/extract_utils.py:153 | the key lies in the history folder's time partition, ends in "_differences.csv", and the table name is what lies between them |
| ExtractUtils.ScratchPath | src/utils/extract_utils.py:156 | the local file lies under /tmp and has the same file name as the table's source key |
| ExtractUtils.StagingKeysDistinct | src/utils/extract_utils.py:145-154 | the source key and the differences key of a table are different objects |
| ExtractUtils.SourceKeyInjective | src/utils/extract_utils.py:148 | different tables have different source keys |
| ExtractUtils.DifferencesKeyInjective | src/utils/extract_utils.py:153 | within one time path, different tables have different differences keys |
| ExtractUtils.CompareCsvs | src/utils/extract_utils.py:176-209 | an empty previous snapshot raises the index error; otherwise the file is "<table>_differences.csv" and its rows are `ChangeRows` of the previous snapshot's first row and the matches; the "no changes" test is the one written, so changes are always reported |
| ExtractUtils.ChangeRows | src/utils/extract_utils.py:196-202 | the written rows are the header followed by exactly one row per match, in match order, each the match's `ChangeRow` |
| ExtractUtils.NonEmpty | src/utils/extract_utils.py:200 | the filter keeps every non-empty group and nothing else; it is empty exactly when every group is empty, and otherwise its first element is the first non-empty group |
| ExtractUtils.ChangeRow | src/utils/extract_utils.py:200-202 | the row is the match's first non-empty group cut at ","; joining the row back with "," restores that group |
| ExtractUtils.ChangeRowOfOneGroup | src/utils/extract_utils.py:199-202 | for a match with one captured group, the written row is that group cut at ","; it has one field more than the group has commas |
| ExtractUtils.NoChangesIntendedExactly | src/utils/extract_utils.py:204-207 | the corrected "no changes" test, a change set of the header alone, holds exactly when the pattern found no match |
| Text.SplitCount | src/utils/extract_utils.py:202 | `split` on one character gives one piece more than there are separators |
| Text.SplitJoin | src/utils/extract_utils.py:202 | joining the pieces of a `split` with the separator gives back the string |
| ExtractUtils.NoChangesAsWrittenNeverHolds | src/utils/extract_utils.py:204-207 | the "no changes" test as written compares a list with a string and never holds; with no matches the corrected test holds while the written one still reports changes |
| Transform.UploadTables | src/lambda_functions/transform.py:39-53 | the attempted puts are the planned uploads up to and including the first rejected one; the response is the failure string when a put is rejected, and the unchanged prefix otherwise |
| Transform.LambdaHandler | src/lambda_functions/transform.py:21-53 | without both buckets the handler fails on unpacking before any upload; with both, it runs the upload loop over the eleven tables into the processed bucket, with each body being the conversion's result |
| Transform.FirstRejected | src/lambda_functions/transform.py:42-51 | every upload before the returned position succeeds, and the upload at it fails |
| Transform.HandlerPlan | src/lambda_functions/transform.py:37-47 | with both buckets located, the i-th upload goes to the processed bucket under the i-th table's key; its body is the parquet encoding of the raw object, or "csv file not found" when the object is missing, and never the extension rejection |
| Transform.TablesAreCsvFiles | src/lambda_functions/transform.py:6-41 | there are eleven files; each ends in ".csv", and dropping four characters gives the extract stage's table name at the same position |
| Transform.ParquetKey | src/lambda_functions/transform.py:46 | the key lies under "/history/<prefix>/", ends in ".parquet", and the table name is what lies between them |
| Transform.ParquetKeyDoubleSlash | src/lambda_functions/transform.py:46 | a prefix ending in "/" puts "//" before the table name in the key |
| Transform.ParquetKeyExample | src/lambda_functions/transform.py:41-46 | the address table under the prefix "YYYY/MM/DD/HH:MM:SS/" goes to "/history/YYYY/MM/DD/HH:MM:SS//address.parquet" |
| Transform.ParquetKeyInjective | src/lambda_functions/transform.py:46 | within one prefix, different tables get different keys |
| Transform.PlannedKeysDistinct | src/lambda_functions/transform.py:6-46 | the eleven uploads go to eleven different keys |
| Transform.AllUploadsSucceed | src/lambda_functions/transform.py:39-53 | when every put succeeds, there are eleven attempts and none of them is rejected |

## Left out

- S3 calls (`list_buckets`, `get_object`, `put_object`) are not modelled as services. The listing is a sequence of names. Reads, puts and their `ClientError` are the function parameters `getObject`, `accepts` and `putSucceeds`.
- The locator and the conversion each call `list_buckets` again. The model gives them one listing, so it assumes the buckets do not change during one invocation.
- `get_secret` is left out because it reads a secret from Secrets Manager.
- `connect_to_db` is left out because it only opens a pg8000 connection. The connection's `run` is the parameter of `QueryDb`.
- ExtractUtils.QueryDb requires every column row to have a first field, which `column[0]` needs. A column row from `information_schema` always has one.
- The `diff` and `echo` subprocesses and Python's regular-expression engine are not modelled. `CompareCsvs` takes the `findall` tuples as input.
- ExtractUtils.CompareCsvs requires every tuple to have a non-empty group. Each alternative of the pattern captures one or more characters, so the engine guarantees this.
- ExtractUtils.CompareCsvs does not model the empty differences file that Python leaves under /tmp when `header[0]` raises. It returns only the exception.
- The quoting and line endings of the `csv` module are not modelled. Rows are sequences of strings. The writer's bytes are the parameter `serialize`.
- Polars `read_csv` and `write_parquet` are not modelled: a third-party library with type inference. The conversion is the parameter `toParquet`.
- The failure of UTF-8 decoding on a non-text object is not modelled. Objects are read as text.
- `dt.now()` is not called. The clock's reading is the `DateTime` parameter of `CreateTimeBasedPath`.
- Logging is left out: it has no effect on results. The one logged choice that depends on data, the change report of `compare_csvs`, is the `changesFound` field of `CompareCsvs`.
- ExtractUtils.CompareCsvs does not model the `FileNotFoundError` raised when `/tmp/<table>.csv` is missing. Its `previous` parameter is the content of a file that exists.
- TransformUtils.ConvertCsvToParquet does not model an exception from polars `read_csv` on malformed CSV text. That exception is outside the `try` and would propagate out of the handler. The parameter `toParquet` is total.
- The `OSError` when /tmp cannot be written is left out. It is a local-file failure outside the pipeline's logic.
- Transform.LambdaHandler reads the event only through its `time_prefix` entry, which is the `prefix` parameter. A missing entry's KeyError is not modelled.

## Findings

| source | as written | input that shows it | evidently intended | confidence | as-written member | corrected member |
|---|---|---|---|---|---|---|
| src/utils/extract_utils.py:204-207 | `changes_to_table == "\n"` compares the list from `re.findall` with a string, so "Changes found in table" is always logged | identical snapshots, for which `findall` returns `[]` and the file holds only the header | report no changes exactly when no change row follows the header | not executed | ExtractUtils.NoChangesAsWrittenNeverHolds | ExtractUtils.NoChangesIntendedExactly |
