/** The transform stage's handler (src/lambda_functions/transform.py): convert
    every staged table to parquet and upload it to the processed bucket under
    the invocation's time prefix, stopping at the first failed upload. */
module Transform {
  import opened Text
  import opened Storage
  import opened TransformUtils
  import ExtractUtils

  const CSVS: seq<string> := [
    "sales_order.csv", "design.csv", "currency.csv", "staff.csv", "counterparty.csv",
    "address.csv", "department.csv", "purchase_order.csv", "payment_type.csv",
    "payment.csv", "transaction.csv"
  ]

  const UPLOAD_FAILED := "Failed to upload file"

  /** What the handler returns: the event's time prefix, the failure string, or
      the ValueError raised when the locator's error string is unpacked. */
  datatype Response = TimePrefix(timePrefix: string) | Failure(message: string) | HandlerUnpackError

  /** One `put_object` call: bucket, key and body. The body is whatever the
      conversion returned, error strings included. */
  datatype Upload = Upload(bucket: string, key: string, body: Converted)

  /** `/history/<prefix>/<table>.parquet`: the table name sits between the
      prefix's folder and the extension, so the key names its table. */
  function ParquetKey(prefix: string, table: string): (key: string)
    ensures StartsWith(key, "/history/" + prefix + "/") && EndsWith(key, ".parquet")
    ensures |key| == |"/history/"| + |prefix| + |table| + 9
    ensures key[|"/history/"| + |prefix| + 1..|key| - 8] == table
  {
    "/history/" + prefix + "/" + table + ".parquet"
  }

  /** `convert_csv_to_parquet` for one bucket listing and storage content. */
  function Converter(bucketNames: seq<string>, getObject: (string, string) -> Option<string>,
                     toParquet: string -> Bytes): string -> Converted
  {
    file => ConvertCsvToParquet(file, bucketNames, getObject, toParquet)
  }

  /** The upload of every file, in list order, to the processed bucket: the
      file's conversion under its key without the extension. */
  function Planned(files: seq<string>, prefix: string, processed: string,
                   convert: string -> Converted): seq<Upload>
  {
    seq(|files|, i requires 0 <= i < |files| =>
      Upload(processed, ParquetKey(prefix, DropLast(files[i], 4)), convert(files[i])))
  }

  /** The position of the first upload that fails, or the number of uploads
      when none does. */
  function FirstRejected(ups: seq<Upload>, putSucceeds: Upload -> bool): (k: nat)
    ensures k <= |ups|
    ensures forall j :: 0 <= j < k ==> putSucceeds(ups[j])
    ensures k < |ups| ==> !putSucceeds(ups[k])
  {
    if ups == [] || !putSucceeds(ups[0]) then 0 else 1 + FirstRejected(ups[1..], putSucceeds)
  }

  /** The response and attempts of the upload loop: the planned uploads up to
      and including the first that fails, and the prefix only when none fails. */
  predicate UploadLoopResult(planned: seq<Upload>, putSucceeds: Upload -> bool, prefix: string,
                             response: Response, attempts: seq<Upload>)
  {
    var k := FirstRejected(planned, putSucceeds);
    && attempts == planned[..if k < |planned| then k + 1 else k]
    && response == if k == |planned| then TimePrefix(prefix) else Failure(UPLOAD_FAILED)
  }

  /** The loop of `lambda_handler` over `files`: convert each file, strip its
      extension, upload the result to the processed bucket, and return the
      failure string at the first upload that fails. */
  method UploadTables(files: seq<string>, prefix: string, processedDataBucket: string,
                      convert: string -> Converted, putSucceeds: Upload -> bool)
    returns (response: Response, attempts: seq<Upload>)
    ensures UploadLoopResult(Planned(files, prefix, processedDataBucket, convert), putSucceeds, prefix, response, attempts)
  {
    ghost var planned := Planned(files, prefix, processedDataBucket, convert);
    attempts := [];
    for i := 0 to |files|
      invariant attempts == planned[..i]
      invariant i <= FirstRejected(planned, putSucceeds)
    {
      var file := files[i];
      var parquet := convert(file);
      file := DropLast(file, 4);
      var upload := Upload(processedDataBucket, ParquetKey(prefix, file), parquet);
      assert upload == planned[i];
      attempts := attempts + [upload];
      if !putSucceeds(upload) {
        return Failure(UPLOAD_FAILED), attempts;
      }
    }
    response := TimePrefix(prefix);
  }

  /** `lambda_handler`: `prefix` is the event's time prefix, `bucketNames` the
      bucket listing, `getObject` and `toParquet` as for the conversion, and
      `putSucceeds` whether a `put_object` call succeeds. Locates the processed
      bucket, then runs the upload loop over the fixed table list. */
  method LambdaHandler(prefix: string, bucketNames: seq<string>,
                       getObject: (string, string) -> Option<string>, toParquet: string -> Bytes,
                       putSucceeds: Upload -> bool)
    returns (response: Response, attempts: seq<Upload>)
    ensures !Locate(bucketNames).Buckets? ==> response == HandlerUnpackError && attempts == []
    ensures Locate(bucketNames).Buckets? ==>
      UploadLoopResult(Planned(CSVS, prefix, Locate(bucketNames).processed, Converter(bucketNames, getObject, toParquet)),
                       putSucceeds, prefix, response, attempts)
  {
    var located := FindsDataBuckets(bucketNames);
    if !located.Buckets? {
      return HandlerUnpackError, [];
    }
    var convert := Converter(bucketNames, getObject, toParquet);
    response, attempts := UploadTables(CSVS, prefix, located.processed, convert, putSucceeds);
  }

  /** Every listed table name ends in ".csv", so `file[:-4]` removes exactly the
      extension, and what is left is the extract stage's table name. */
  lemma TablesAreCsvFiles()
    ensures |CSVS| == |ExtractUtils.DATA_TABLES| == 11
    ensures forall i :: 0 <= i < |CSVS| ==>
      EndsWith(CSVS[i], ".csv") && DropLast(CSVS[i], 4) == ExtractUtils.DATA_TABLES[i]
  {
    forall i | 0 <= i < |CSVS|
      ensures EndsWith(CSVS[i], ".csv") && DropLast(CSVS[i], 4) == ExtractUtils.DATA_TABLES[i]
    {
      assert CSVS[i] == ExtractUtils.DATA_TABLES[i] + ".csv";
    }
  }

  /** The key ends the table's segment with ".parquet" right after the prefix's
      own segment; a prefix ending in "/" therefore yields "//" in the key. */
  lemma ParquetKeyDoubleSlash(prefix: string, table: string)
    requires EndsWith(prefix, "/")
    ensures var key, n := ParquetKey(prefix, table), |"/history/"| + |prefix|;
      key[n - 1] == '/' && key[n] == '/'
  {
  }

  /** The key of the end-to-end scenario. */
  lemma ParquetKeyExample()
    ensures ParquetKey("YYYY/MM/DD/HH:MM:SS/", DropLast("address.csv", 4)) ==
            "/history/YYYY/MM/DD/HH:MM:SS//address.parquet"
  {
  }

  /** Within one prefix, different tables get different keys. */
  lemma ParquetKeyInjective(prefix: string, a: string, b: string)
    requires ParquetKey(prefix, a) == ParquetKey(prefix, b)
    ensures a == b
  {
  }

  /** The eleven table names are pairwise different. */
  lemma DataTablesDistinct()
    ensures forall i, j :: 0 <= i < j < |ExtractUtils.DATA_TABLES| ==>
      ExtractUtils.DATA_TABLES[i] != ExtractUtils.DATA_TABLES[j]
  {
  }

  /** The eleven planned uploads go to eleven different keys, so none
      overwrites another. */
  lemma PlannedKeysDistinct(prefix: string, processed: string, convert: string -> Converted)
    ensures var ups := Planned(CSVS, prefix, processed, convert);
      forall i, j :: 0 <= i < j < |ups| ==> ups[i].key != ups[j].key
  {
    var ups := Planned(CSVS, prefix, processed, convert);
    TablesAreCsvFiles();
    forall i, j | 0 <= i < j < |ups|
      ensures ups[i].key != ups[j].key
    {
      DataTablesDistinct();
      if ups[i].key == ups[j].key {
        ParquetKeyInjective(prefix, DropLast(CSVS[i], 4), DropLast(CSVS[j], 4));
      }
    }
  }

  /** When every upload succeeds the handler makes eleven uploads, one per
      table in list order, and echoes the prefix unchanged. */
  lemma AllUploadsSucceed(prefix: string, processed: string, convert: string -> Converted,
                          putSucceeds: Upload -> bool)
    requires forall u :: putSucceeds(u)
    ensures var planned := Planned(CSVS, prefix, processed, convert);
      FirstRejected(planned, putSucceeds) == |planned| == 11
  {
  }

  /** With both buckets located, the handler's i-th planned upload goes to the
      processed bucket under the i-th extract table's key, and its body is the
      parquet encoding of the raw bucket's CSV object, or the not-found string
      when that object is missing: never the extension rejection. */
  lemma HandlerPlan(prefix: string, bucketNames: seq<string>,
                    getObject: (string, string) -> Option<string>, toParquet: string -> Bytes)
    requires Locate(bucketNames).Buckets?
    ensures var located := Locate(bucketNames);
      var planned := Planned(CSVS, prefix, located.processed, Converter(bucketNames, getObject, toParquet));
      forall i :: 0 <= i < |planned| ==>
        && planned[i].bucket == located.processed
        && planned[i].key == ParquetKey(prefix, ExtractUtils.DATA_TABLES[i])
        && (getObject(located.raw, CSVS[i]).None? ==> planned[i].body == Message(NOT_FOUND))
        && (getObject(located.raw, CSVS[i]).Some? ==>
              planned[i].body == Parquet(toParquet(getObject(located.raw, CSVS[i]).value)))
  {
    TablesAreCsvFiles();
  }
}
