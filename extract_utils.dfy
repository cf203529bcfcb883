/** The sequential logic of the extract stage (src/utils/extract_utils.py):
    the time-partition path, the raw bucket lookup, the assembly of query
    results, the staging keys of a table's CSV and the change-set assembly.
    The clock, the bucket listing, the database, the CSV writer, `diff` and
    the regular-expression engine are inputs or oracles. */
module ExtractUtils {
  import opened Text
  import opened Storage
  import TransformUtils

  const HISTORY_PATH := "/history/"
  const SOURCE_PATH := "/source/"
  const SOURCE_FILE_SUFFIX := "_new"
  const DIFFERENCES_FILE_SUFFIX := "_differences"
  const UPLOAD_FAILED := "Failed to upload file"

  const DATA_TABLES: seq<string> := [
    "sales_order", "design", "currency", "staff", "counterparty", "address",
    "department", "purchase_order", "payment_type", "payment", "transaction"
  ]

  // ---------------------------------------------------------------------------
  // Time partition

  /** The fields of a Python `datetime` that the path uses. */
  datatype DateTime = DateTime(year: nat, month: nat, day: nat, hour: nat, minute: nat, second: nat)

  /** The ranges a `datetime` guarantees (day is bounded by 31 only: the
      calendar does not matter to the path). */
  predicate ValidDateTime(t: DateTime) {
    1 <= t.year <= 9999 && 1 <= t.month <= 12 && 1 <= t.day <= 31 &&
    t.hour < 24 && t.minute < 60 && t.second < 60
  }

  /** A number below 100 written as exactly two digits. */
  function TwoDigits(n: nat): (s: string)
    requires n < 100
  {
    [Digit(n / 10), Digit(n % 10)]
  }

  /** The time partition `<year>/<MM>/<DD>/<HH>:<MM>:<SS>/`: the year unpadded,
      every other field as two digits. */
  function TimePath(t: DateTime): string
    requires ValidDateTime(t)
  {
    Decimal(t.year) + "/" + TwoDigits(t.month) + "/" + TwoDigits(t.day) + "/" +
    TwoDigits(t.hour) + ":" + TwoDigits(t.minute) + ":" + TwoDigits(t.second) + "/"
  }

  /** Prefixing "0" to a one-character `str(n)` is writing `n` as two digits. */
  lemma ZeroPadIsTwoDigits(n: nat)
    requires n < 100
    ensures (if |Decimal(n)| == 1 then "0" + Decimal(n) else Decimal(n)) == TwoDigits(n)
  {
    DecimalLength(n);
    if n >= 10 {
      assert Decimal(n) == Decimal(n / 10) + [Digit(n % 10)];
    }
  }

  /** `create_time_based_path`, with the components of `dt.now()` passed in:
      each component below the year is turned into text and padded with "0"
      when it has one character. */
  method CreateTimeBasedPath(now: DateTime) returns (path: string)
    requires ValidDateTime(now)
    ensures path == TimePath(now)
  {
    var year := Decimal(now.year);
    var month := Decimal(now.month);
    var day := Decimal(now.day);
    var hour := Decimal(now.hour);
    if |month| == 1 {
      month := "0" + month;
    }
    if |day| == 1 {
      day := "0" + day;
    }
    if |hour| == 1 {
      hour := "0" + hour;
    }
    var minute := Decimal(now.minute);
    if |minute| == 1 {
      minute := "0" + minute;
    }
    var second := Decimal(now.second);
    if |second| == 1 {
      second := "0" + second;
    }
    ZeroPadIsTwoDigits(now.month);
    ZeroPadIsTwoDigits(now.day);
    ZeroPadIsTwoDigits(now.hour);
    ZeroPadIsTwoDigits(now.minute);
    ZeroPadIsTwoDigits(now.second);
    path := year + "/" + month + "/" + day + "/" + hour + ":" + minute + ":" + second + "/";
  }

  /** The path ends in "/", is 16 characters longer than the year, hence 20
      characters for a four-digit year, and carries its separators at fixed
      places after the year. */
  lemma TimePathShape(t: DateTime)
    requires ValidDateTime(t)
    ensures var p, y := TimePath(t), |Decimal(t.year)|;
      && |p| == y + 16
      && p[|p| - 1] == '/'
      && p[y] == '/' && p[y + 3] == '/' && p[y + 6] == '/' && p[y + 9] == ':' && p[y + 12] == ':'
    ensures 1000 <= t.year ==> |TimePath(t)| == 20
  {
    DecimalLength(t.year);
  }

  /** Cutting the path at "/" gives back the year, month and day texts, the
      time of day and a final empty piece. */
  lemma TimePathPieces(t: DateTime)
    requires ValidDateTime(t)
    ensures Split(TimePath(t), '/') ==
      [Decimal(t.year), TwoDigits(t.month), TwoDigits(t.day),
       TwoDigits(t.hour) + ":" + TwoDigits(t.minute) + ":" + TwoDigits(t.second), ""]
  {
    var y, mo, d := Decimal(t.year), TwoDigits(t.month), TwoDigits(t.day);
    var hms := TwoDigits(t.hour) + ":" + TwoDigits(t.minute) + ":" + TwoDigits(t.second);
    assert '/' !in y by {
      assert forall i :: 0 <= i < |y| ==> IsDigit(y[i]);
    }
    assert '/' !in hms by {
      assert forall i :: 0 <= i < |hms| ==> IsDigit(hms[i]) || hms[i] == ':';
    }
    assert TimePath(t) == y + ['/'] + (mo + ['/'] + (d + ['/'] + (hms + ['/'] + "")));
    SplitAt(hms, "", '/');
    SplitAt(d, hms + ['/'] + "", '/');
    SplitAt(mo, d + ['/'] + (hms + ['/'] + ""), '/');
    SplitAt(y, mo + ['/'] + (d + ['/'] + (hms + ['/'] + "")), '/');
  }

  lemma TwoDigitsInjective(a: nat, b: nat)
    requires a < 100 && b < 100 && TwoDigits(a) == TwoDigits(b)
    ensures a == b
  {
    assert TwoDigits(a)[0] == TwoDigits(b)[0] && TwoDigits(a)[1] == TwoDigits(b)[1];
  }

  /** Two invocations at different seconds get different time partitions. */
  lemma TimePathInjective(a: DateTime, b: DateTime)
    requires ValidDateTime(a) && ValidDateTime(b)
    requires TimePath(a) == TimePath(b)
    ensures a == b
  {
    TimePathPieces(a);
    TimePathPieces(b);
    DecimalInjective(a.year, b.year);
    TwoDigitsInjective(a.month, b.month);
    TwoDigitsInjective(a.day, b.day);
    var ha := TwoDigits(a.hour) + ":" + TwoDigits(a.minute) + ":" + TwoDigits(a.second);
    var hb := TwoDigits(b.hour) + ":" + TwoDigits(b.minute) + ":" + TwoDigits(b.second);
    assert ha == hb;
    assert ha[..2] == TwoDigits(a.hour) && hb[..2] == TwoDigits(b.hour);
    assert ha[3..5] == TwoDigits(a.minute) && hb[3..5] == TwoDigits(b.minute);
    assert ha[6..] == TwoDigits(a.second) && hb[6..] == TwoDigits(b.second);
    TwoDigitsInjective(a.hour, b.hour);
    TwoDigitsInjective(a.minute, b.minute);
    TwoDigitsInjective(a.second, b.second);
  }

  // ---------------------------------------------------------------------------
  // Raw bucket lookup

  /** `connect_to_bucket`: the first name of the listing, in its order, that
      starts with the raw prefix; raises when there is none. */
  method ConnectToBucket(names: seq<string>) returns (r: Outcome<string>)
    ensures r.Raised? <==> !AnyPrefixed(names, RAW_PREFIX)
    ensures r.Raised? ==> r.message == TransformUtils.NO_RAW_BUCKET
    ensures r.Ok? ==> exists k :: (0 <= k < |names| && names[k] == r.value && StartsWith(r.value, RAW_PREFIX) &&
                                   forall j :: 0 <= j < k ==> !StartsWith(names[j], RAW_PREFIX))
  {
    for i := 0 to |names|
      invariant forall j :: 0 <= j < i ==> !StartsWith(names[j], RAW_PREFIX)
    {
      if StartsWith(names[i], RAW_PREFIX) {
        return Ok(names[i]);
      }
    }
    return Raised(TransformUtils.NO_RAW_BUCKET);
  }

  // ---------------------------------------------------------------------------
  // Query results

  const COLUMN_QUERY_HEAD := "SELECT column_name FROM information_schema.columns WHERE table_name = '"
  const TABLE_QUERY_HEAD := "SELECT * FROM "

  /** The query for the column names of a table: the table name is quoted
      between the fixed head and "';", so it can be read back from the query. */
  function ColumnQuery(dtName: string): (q: string)
    ensures StartsWith(q, COLUMN_QUERY_HEAD) && EndsWith(q, "';")
    ensures |q| == |COLUMN_QUERY_HEAD| + |dtName| + 2 && q[|COLUMN_QUERY_HEAD|..|q| - 2] == dtName
  {
    COLUMN_QUERY_HEAD + dtName + "';"
  }

  /** The query for the whole content of a table: the table name, unquoted,
      between the fixed head and ";". */
  function TableQuery(dtName: string): (q: string)
    ensures StartsWith(q, TABLE_QUERY_HEAD) && EndsWith(q, ";")
    ensures |q| == |TABLE_QUERY_HEAD| + |dtName| + 1 && q[|TABLE_QUERY_HEAD|..|q| - 1] == dtName
  {
    TABLE_QUERY_HEAD + dtName + ";"
  }

  /** Different tables are asked for with different queries. */
  lemma QueriesInjective(a: string, b: string)
    ensures ColumnQuery(a) == ColumnQuery(b) ==> a == b
    ensures TableQuery(a) == TableQuery(b) ==> a == b
  {
  }

  /** `query_db`: `run` answers a query with its result rows. The header is the
      first field of every row of the column query, in order; the rows of the
      table query follow unchanged. */
  method QueryDb<T>(dtName: string, run: string -> seq<seq<T>>) returns (table: seq<seq<T>>)
    requires forall column :: column in run(ColumnQuery(dtName)) ==> |column| >= 1
    ensures var columnNames := run(ColumnQuery(dtName));
      && |table| == 1 + |run(TableQuery(dtName))|
      && |table[0]| == |columnNames|
      && (forall i :: 0 <= i < |columnNames| ==> table[0][i] == columnNames[i][0])
      && table[1..] == run(TableQuery(dtName))
  {
    var columnNames := run(ColumnQuery(dtName));
    var header := [];
    for i := 0 to |columnNames|
      invariant |header| == i
      invariant forall j :: 0 <= j < i ==> header[j] == columnNames[j][0]
    {
      header := header + [columnNames[i][0]];
    }
    var dataRows := run(TableQuery(dtName));
    table := [header] + dataRows;
  }

  // ---------------------------------------------------------------------------
  // Staging a table's CSV

  /** `/source/<table>_new.csv`: the table name sits between the source
      folder and the suffix, so the key names its table. */
  function SourceKey(tablename: string): (key: string)
    ensures StartsWith(key, SOURCE_PATH) && EndsWith(key, "_new.csv")
    ensures |key| == |SOURCE_PATH| + |tablename| + 8 && key[|SOURCE_PATH|..|key| - 8] == tablename
  {
    SOURCE_PATH + tablename + SOURCE_FILE_SUFFIX + ".csv"
  }

  /** `/history/<time path><table>_differences.csv`: inside the history
      folder's time partition, with the table name before the suffix. */
  function DifferencesKey(timePath: string, tablename: string): (key: string)
    ensures StartsWith(key, HISTORY_PATH + timePath) && EndsWith(key, "_differences.csv")
    ensures |key| == |HISTORY_PATH| + |timePath| + |tablename| + 16
    ensures key[|HISTORY_PATH| + |timePath|..|key| - 16] == tablename
  {
    HISTORY_PATH + timePath + tablename + DIFFERENCES_FILE_SUFFIX + ".csv"
  }

  /** `/tmp/<table>_new.csv`, the local copy of a later extraction: the same
      file name as the source key's, under /tmp instead of the source folder. */
  function ScratchPath(tablename: string): (path: string)
    ensures StartsWith(path, "/tmp/")
    ensures path[|"/tmp/"|..] == SourceKey(tablename)[|SOURCE_PATH|..]
  {
    "/tmp/" + tablename + "_new.csv"
  }

  /** One CSV written by `create_and_upload_csv`. */
  datatype CsvWrite = ObjectPut(bucket: string, key: string, body: Bytes) | LocalFile(path: string, body: Bytes)

  /** What a staging call leaves behind: the writes that took effect, in order,
      and the exception it raised, if any. */
  datatype Staged = Staged(writes: seq<CsvWrite>, raised: Option<string>)

  /** `create_and_upload_csv`: `serialize` is the CSV writer with UTF-8
      encoding, `accepts(bucket, key)` whether a put succeeds. On the first
      call the same bytes go to the source key and then to the differences key,
      and a failed put raises and stops; otherwise the bytes go only to the
      local scratch file. */
  function CreateAndUploadCsv<T>(data: seq<seq<T>>, serialize: seq<seq<T>> -> Bytes,
                                 accepts: (string, string) -> bool,
                                 bucket: string, tablename: string, timePath: string,
                                 firstCall: bool): (r: Staged)
    ensures !firstCall ==> r == Staged([LocalFile(ScratchPath(tablename), serialize(data))], None)
    ensures firstCall ==> (|r.writes| <= 2 &&
      forall w :: w in r.writes ==> w.ObjectPut? && w.bucket == bucket && w.body == serialize(data))
    ensures firstCall ==>
      (r.raised == None <==> accepts(bucket, SourceKey(tablename)) && accepts(bucket, DifferencesKey(timePath, tablename)))
    ensures firstCall && r.raised == None ==>
      r.writes == [ObjectPut(bucket, SourceKey(tablename), serialize(data)),
                   ObjectPut(bucket, DifferencesKey(timePath, tablename), serialize(data))]
    ensures firstCall && !accepts(bucket, SourceKey(tablename)) ==> r.writes == []
    ensures firstCall && accepts(bucket, SourceKey(tablename)) && !accepts(bucket, DifferencesKey(timePath, tablename)) ==>
      r.writes == [ObjectPut(bucket, SourceKey(tablename), serialize(data))]
    ensures r.raised != None ==> r.raised == Some(UPLOAD_FAILED)
  {
    var body := serialize(data);
    if firstCall then
      if !accepts(bucket, SourceKey(tablename)) then Staged([], Some(UPLOAD_FAILED))
      else
        var first := ObjectPut(bucket, SourceKey(tablename), body);
        if !accepts(bucket, DifferencesKey(timePath, tablename)) then Staged([first], Some(UPLOAD_FAILED))
        else Staged([first, ObjectPut(bucket, DifferencesKey(timePath, tablename), body)], None)
    else
      Staged([LocalFile(ScratchPath(tablename), body)], None)
  }

  /** The two keys of a first call are distinct: "/source/..." against "/history/...". */
  lemma StagingKeysDistinct(timePath: string, tablename: string)
    ensures SourceKey(tablename) != DifferencesKey(timePath, tablename)
  {
    assert SourceKey(tablename)[1] == 's';
    assert DifferencesKey(timePath, tablename)[1] == 'h';
  }

  /** Different tables stage to different source keys. */
  lemma SourceKeyInjective(a: string, b: string)
    requires SourceKey(a) == SourceKey(b)
    ensures a == b
  {
  }

  /** Within one time partition, different tables get different differences keys. */
  lemma DifferencesKeyInjective(timePath: string, a: string, b: string)
    requires DifferencesKey(timePath, a) == DifferencesKey(timePath, b)
    ensures a == b
  {
  }

  // ---------------------------------------------------------------------------
  // Change-set assembly

  /** A row as the CSV reader and writer see it. */
  type Row = seq<string>

  /** One tuple of `re.findall`: the three capture groups of the three
      alternatives of the change pattern, "" for a group that did not take part. */
  datatype Match = Match(first: string, second: string, third: string)

  function Groups(m: Match): seq<string> {
    [m.first, m.second, m.third]
  }

  /** `[k for k in groups if not "" == k]`: the non-empty groups, every one
      of them, in their order. */
  function NonEmpty(groups: seq<string>): (r: seq<string>)
    ensures forall k :: 0 <= k < |r| ==> r[k] != "" && r[k] in groups
    ensures forall g :: g in groups && g != "" ==> g in r
    ensures r == [] <==> forall k :: 0 <= k < |groups| ==> groups[k] == ""
    ensures r != [] ==> exists j :: (0 <= j < |groups| && r[0] == groups[j] &&
                                     forall i :: 0 <= i < j ==> groups[i] == "")
  {
    if groups == [] then []
    else
      var rest := NonEmpty(groups[1..]);
      assert forall x :: x in groups[1..] ==> x in groups;
      assert forall x :: x in groups ==> x == groups[0] || x in groups[1..];
      if groups[0] == "" then
        assert rest != [] ==> exists j :: (0 <= j < |groups[1..]| && rest[0] == groups[1..][j] &&
                                           forall i :: 0 <= i < j ==> groups[1..][i] == "");
        if rest != [] then
          var j :| 0 <= j < |groups[1..]| && rest[0] == groups[1..][j] &&
                   forall i :: 0 <= i < j ==> groups[1..][i] == "";
          assert forall i :: 0 <= i < j + 1 ==> groups[i] == "" by {
            forall i | 0 <= i < j + 1 ensures groups[i] == "" {
              if i > 0 { assert groups[i] == groups[1..][i - 1]; }
            }
          }
          rest
        else rest
      else [groups[0]] + rest
  }

  /** Every alternative of the pattern captures one or more characters, so some
      group of a match is non-empty. */
  predicate Captured(m: Match) {
    m.first != "" || m.second != "" || m.third != ""
  }

  /** What `re.findall` yields for this pattern: exactly one group took part. */
  predicate OneGroup(m: Match) {
    (m.first != "" && m.second == "" && m.third == "") ||
    (m.first == "" && m.second != "" && m.third == "") ||
    (m.first == "" && m.second == "" && m.third != "")
  }

  /** The written row of a match: its first non-empty group cut at ","; joining
      the row back with "," restores that group. */
  function ChangeRow(m: Match): (row: Row)
    requires Captured(m)
    ensures exists j :: (0 <= j < 3 && Groups(m)[j] != "" && (forall i :: 0 <= i < j ==> Groups(m)[i] == "") &&
                         row == Split(Groups(m)[j], ',') && Join(row, ',') == Groups(m)[j])
  {
    assert Groups(m)[0] != "" || Groups(m)[1] != "" || Groups(m)[2] != "";
    var group := NonEmpty(Groups(m))[0];
    SplitJoin(group, ',');
    Split(group, ',')
  }

  /** For a match with one group, the row is that group's text cut at ",", with
      one field more than the group has commas. */
  lemma ChangeRowOfOneGroup(m: Match, g: string)
    requires OneGroup(m) && g in Groups(m) && g != ""
    ensures Captured(m)
    ensures ChangeRow(m) == Split(g, ',')
    ensures |ChangeRow(m)| == Count(g, ',') + 1
  {
    SplitCount(g, ',');
  }

  /** The rows of a change set: the header, then one row per match, in match order. */
  function ChangeRows(header: Row, matches: seq<Match>): (rows: seq<Row>)
    requires forall m :: m in matches ==> Captured(m)
    ensures |rows| == 1 + |matches| && rows[0] == header
    ensures forall k :: 0 <= k < |matches| ==> rows[k + 1] == ChangeRow(matches[k])
  {
    if matches == [] then [header]
    else ChangeRows(header, matches[..|matches| - 1]) + [ChangeRow(matches[|matches| - 1])]
  }

  /** The corrected "no changes" test: the change set holds the header alone. */
  predicate NoChangesIntended(rows: seq<Row>) {
    |rows| == 1
  }

  /** The corrected test holds exactly when the pattern found no match. */
  lemma NoChangesIntendedExactly(header: Row, matches: seq<Match>)
    requires forall m :: m in matches ==> Captured(m)
    ensures NoChangesIntended(ChangeRows(header, matches)) <==> matches == []
  {
  }

  /** What `compare_csvs` writes and returns: the returned file name, the rows
      written to that file under /tmp, and whether "Changes found in table" is
      logged. */
  datatype ChangeSet = ChangeSet(filepath: string, rows: seq<Row>, changesFound: bool)

  /** `compare_csvs(dt_name)`: `previous` is the previous snapshot as the CSV
      reader yields it, `matches` the tuples the change pattern finds in the
      output of `diff`. The header is the previous snapshot's first row (an
      empty previous snapshot makes `header[0]` raise); each match adds one row.
      The "no changes" test is the one written, so changes are always reported. */
  method CompareCsvs(dtName: string, previous: seq<Row>, matches: seq<Match>) returns (r: Outcome<ChangeSet>)
    requires forall m :: m in matches ==> Captured(m)
    ensures previous == [] ==> r == Raised("list index out of range")
    ensures previous != [] ==> r.Ok?
    ensures r.Ok? ==>
      && r.value.filepath == dtName + DIFFERENCES_FILE_SUFFIX + ".csv"
      && r.value.rows == ChangeRows(previous[0], matches)
      && r.value.changesFound == !NoChangesAsWritten(matches)
      && r.value.changesFound
  {
    // The reader loop appends the first row and breaks: it stops once the header holds a row.
    var header: seq<Row> := [];
    var i := 0;
    while i < |previous| && header == []
      invariant i <= 1 && i <= |previous| && header == previous[..i]
    {
      header := header + [previous[i]];
      i := i + 1;
    }
    var filepath := dtName + DIFFERENCES_FILE_SUFFIX + ".csv";
    if header == [] {
      return Raised("list index out of range");
    }
    var rows := [header[0]];
    for k := 0 to |matches|
      invariant rows == ChangeRows(previous[0], matches[..k])
    {
      var changeList := NonEmpty(Groups(matches[k]));
      assert Captured(matches[k]);
      assert Groups(matches[k])[0] != "" || Groups(matches[k])[1] != "" || Groups(matches[k])[2] != "";
      assert matches[..k + 1][..k] == matches[..k];
      rows := rows + [Split(changeList[0], ',')];
    }
    assert matches[..|matches|] == matches;
    var noChanges := PyList(matches) == PyStr("\n");
    r := Ok(ChangeSet(filepath, rows, !noChanges));
  }

  /** A Python value as far as the "no changes" test needs: `re.findall`
      returns a list, the test compares with a string. */
  datatype PyValue = PyList(items: seq<Match>) | PyStr(text: string)

  /** The test as written, `changes_to_table == "\n"`: in Python a list never
      equals a string. */
  predicate NoChangesAsWritten(changesToTable: seq<Match>) {
    PyList(changesToTable) == PyStr("\n")
  }

  /** The test as written never holds. For identical snapshots the pattern finds
      no match and the change set is the header alone, so the corrected test
      holds while the written one reports changes. */
  lemma NoChangesAsWrittenNeverHolds(header: Row)
    ensures forall matches :: !NoChangesAsWritten(matches)
    ensures NoChangesIntended(ChangeRows(header, [])) && !NoChangesAsWritten([])
  {
  }
}
