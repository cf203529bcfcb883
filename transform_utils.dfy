/** The bucket locator used by the transform stage and the guard of the
    CSV-to-parquet conversion (src/utils/transform_utils.py). The bucket
    listing is the sequence of names `list_buckets` returns, in its order;
    the object read and the columnar encoding are oracles. */
module TransformUtils {
  import opened Text
  import opened Storage

  const NO_BUCKETS := "No buckets found"
  const NO_RAW_BUCKET := "No raw data bucket found"
  const NO_PROCESSED_BUCKET := "No processed data bucket found"
  const NOT_FOUND := "csv file not found"

  /** What `finds_data_buckets` returns: one of three error strings, or the
      (raw, processed) pair. */
  datatype Located = Failed(message: string) | Buckets(raw: string, processed: string)

  /** Both kinds of bucket occur among `names`. */
  predicate BothSeen(names: seq<string>) {
    AnyPrefixed(names, RAW_PREFIX) && AnyPrefixed(names, PROCESSED_PREFIX)
  }

  /** How many names the scan reads: the length of the shortest prefix of the
      listing holding both kinds of bucket, or the whole listing when there is none. */
  function Horizon(names: seq<string>): (h: nat)
    ensures h <= |names|
  {
    if |names| > 0 && BothSeen(names[..|names| - 1]) then Horizon(names[..|names| - 1]) else |names|
  }

  /** The outcome of the locator, stated on the names the scan reads: the error
      naming what is missing, or for each kind the last name of that kind read. */
  function Locate(names: seq<string>): Located {
    var seen := names[..Horizon(names)];
    if !AnyPrefixed(seen, RAW_PREFIX) && !AnyPrefixed(seen, PROCESSED_PREFIX) then Failed(NO_BUCKETS)
    else if !AnyPrefixed(seen, RAW_PREFIX) then Failed(NO_RAW_BUCKET)
    else if !AnyPrefixed(seen, PROCESSED_PREFIX) then Failed(NO_PROCESSED_BUCKET)
    else Buckets(LastPrefixed(seen, RAW_PREFIX), LastPrefixed(seen, PROCESSED_PREFIX))
  }

  lemma BothSeenMonotone(names: seq<string>, i: nat, j: nat)
    requires i <= j <= |names|
    ensures BothSeen(names[..i]) ==> BothSeen(names[..j])
  {
    AnyPrefixedMonotone(names, i, j, RAW_PREFIX);
    AnyPrefixedMonotone(names, i, j, PROCESSED_PREFIX);
  }

  /** The horizon is the first position after which both kinds have been seen. */
  lemma {:induction false} HorizonAt(names: seq<string>, i: nat)
    requires 0 < i <= |names|
    requires BothSeen(names[..i]) && !BothSeen(names[..i - 1])
    ensures Horizon(names) == i
    decreases |names|
  {
    if i < |names| {
      var front := names[..|names| - 1];
      assert front[..i] == names[..i] && front[..i - 1] == names[..i - 1];
      BothSeenMonotone(front, i, |front|);
      HorizonAt(front, i);
    } else {
      assert names[..|names|] == names;
    }
  }

  /** Without both kinds the scan reads every name. */
  lemma {:induction false} HorizonOfIncomplete(names: seq<string>)
    requires !BothSeen(names)
    ensures Horizon(names) == |names|
  {
    if |names| > 0 {
      assert names[..|names|] == names;
      BothSeenMonotone(names, |names| - 1, |names|);
      assert !BothSeen(names[..|names| - 1]);
    }
  }

  /** With both kinds the scan stops at the first prefix that holds both. */
  lemma {:induction false} HorizonMinimal(names: seq<string>)
    requires BothSeen(names)
    ensures 0 < Horizon(names)
    ensures BothSeen(names[..Horizon(names)]) && !BothSeen(names[..Horizon(names) - 1])
    decreases |names|
  {
    assert names[..|names|] == names;
    var front := names[..|names| - 1];
    if BothSeen(front) {
      HorizonMinimal(front);
      var h := Horizon(front);
      assert front[..h] == names[..h] && front[..h - 1] == names[..h - 1];
    }
  }

  /** Truncating at the horizon loses no kind: the scan finds a raw (processed)
      bucket exactly when the listing holds one. */
  lemma SeenHasKinds(names: seq<string>)
    ensures AnyPrefixed(names[..Horizon(names)], RAW_PREFIX) == AnyPrefixed(names, RAW_PREFIX)
    ensures AnyPrefixed(names[..Horizon(names)], PROCESSED_PREFIX) == AnyPrefixed(names, PROCESSED_PREFIX)
  {
    if BothSeen(names) {
      HorizonMinimal(names);
      AnyPrefixedMonotone(names, Horizon(names), |names|, RAW_PREFIX);
      AnyPrefixedMonotone(names, Horizon(names), |names|, PROCESSED_PREFIX);
      assert names[..|names|] == names;
    } else {
      HorizonOfIncomplete(names);
      assert names[..|names|] == names;
    }
  }

  /** The four outcomes of the locator, in terms of the whole listing; on success
      the pair is (raw-prefixed, processed-prefixed). */
  lemma LocateOutcomes(names: seq<string>)
    ensures !AnyPrefixed(names, RAW_PREFIX) && !AnyPrefixed(names, PROCESSED_PREFIX) ==>
      Locate(names) == Failed(NO_BUCKETS)
    ensures !AnyPrefixed(names, RAW_PREFIX) && AnyPrefixed(names, PROCESSED_PREFIX) ==>
      Locate(names) == Failed(NO_RAW_BUCKET)
    ensures AnyPrefixed(names, RAW_PREFIX) && !AnyPrefixed(names, PROCESSED_PREFIX) ==>
      Locate(names) == Failed(NO_PROCESSED_BUCKET)
    ensures Locate(names).Buckets? <==> BothSeen(names)
    ensures Locate(names).Buckets? ==>
      StartsWith(Locate(names).raw, RAW_PREFIX) && StartsWith(Locate(names).processed, PROCESSED_PREFIX) &&
      Locate(names).raw in names && Locate(names).processed in names
  {
    SeenHasKinds(names);
    if BothSeen(names) {
      var seen := names[..Horizon(names)];
      var r := LastPrefixed(seen, RAW_PREFIX);
      var p := LastPrefixed(seen, PROCESSED_PREFIX);
      var kr :| 0 <= kr < |seen| && seen[kr] == r;
      var kp :| 0 <= kp < |seen| && seen[kp] == p;
      assert names[kr] == r && names[kp] == p;
    }
  }

  /** Names after the horizon never affect the outcome. */
  lemma LocateIgnoresLaterNames(names: seq<string>, later: seq<string>)
    requires BothSeen(names)
    ensures Locate(names[..Horizon(names)] + later) == Locate(names)
  {
    var h := Horizon(names);
    HorizonMinimal(names);
    var extended := names[..h] + later;
    assert extended[..h] == names[..h];
    assert extended[..h - 1] == names[..h - 1];
    HorizonAt(extended, h);
  }

  /** When the listing has a single raw-prefixed name, that is the raw bucket found. */
  lemma LocateFindsOnlyRawBucket(names: seq<string>, k: nat)
    requires k < |names| && StartsWith(names[k], RAW_PREFIX)
    requires forall j :: 0 <= j < |names| && j != k ==> !StartsWith(names[j], RAW_PREFIX)
    requires AnyPrefixed(names, PROCESSED_PREFIX)
    ensures Locate(names).Buckets? && Locate(names).raw == names[k]
  {
    LocateOutcomes(names);
    SeenHasKinds(names);
    var seen := names[..Horizon(names)];
    var r := LastPrefixed(seen, RAW_PREFIX);
    var kr :| 0 <= kr < |seen| && seen[kr] == r;
    assert names[kr] == r;
  }

  /** With two raw-prefixed names before the first processed one, the scan keeps
      the second: the locator does not return the first match. */
  lemma LocateKeepsLaterRawName()
    ensures Locate(["totesys-raw-data-a", "totesys-raw-data-b", "totesys-processed-data-c"]) ==
            Buckets("totesys-raw-data-b", "totesys-processed-data-c")
  {
    var names := ["totesys-raw-data-a", "totesys-raw-data-b", "totesys-processed-data-c"];
    assert StartsWith(names[2], PROCESSED_PREFIX) && StartsWith(names[1], RAW_PREFIX);
    assert names[..3] == names;
    assert !StartsWith(names[0], PROCESSED_PREFIX) && !StartsWith(names[1], PROCESSED_PREFIX);
    assert !AnyPrefixed(names[..2], PROCESSED_PREFIX);
    HorizonAt(names, 3);
    assert LastPrefixed(names, RAW_PREFIX) == names[1] by {
      assert names[..2][..1] == names[..1];
      assert names[2][..|RAW_PREFIX|][8] != RAW_PREFIX[8];
    }
  }

  /** `finds_data_buckets`: scan the listing in order, remembering the latest name
      of each kind and stopping once both kinds have been seen. */
  method FindsDataBuckets(names: seq<string>) returns (r: Located)
    ensures r == Locate(names)
  {
    var foundProcessed, foundRaw := false, false;
    var rawDataBucket, processedDataBucket := "", "";
    var i := 0;
    while i < |names|
      invariant 0 <= i <= |names|
      invariant foundRaw == AnyPrefixed(names[..i], RAW_PREFIX)
      invariant foundProcessed == AnyPrefixed(names[..i], PROCESSED_PREFIX)
      invariant foundRaw ==> rawDataBucket == LastPrefixed(names[..i], RAW_PREFIX)
      invariant foundProcessed ==> processedDataBucket == LastPrefixed(names[..i], PROCESSED_PREFIX)
      invariant !(foundRaw && foundProcessed)
    {
      var name := names[i];
      AnyPrefixedStep(names, i, RAW_PREFIX);
      AnyPrefixedStep(names, i, PROCESSED_PREFIX);
      if StartsWith(name, RAW_PREFIX) {
        rawDataBucket := name;
        foundRaw := true;
      }
      if StartsWith(name, PROCESSED_PREFIX) {
        processedDataBucket := name;
        foundProcessed := true;
      }
      if foundRaw {
        LastPrefixedStep(names, i, RAW_PREFIX);
      }
      if foundProcessed {
        LastPrefixedStep(names, i, PROCESSED_PREFIX);
      }
      i := i + 1;
      if foundRaw && foundProcessed {
        HorizonAt(names, i);
        break;
      }
    }
    if !(foundRaw && foundProcessed) {
      assert names[..i] == names;
      HorizonOfIncomplete(names);
    }

    if !foundRaw && !foundProcessed {
      r := Failed(NO_BUCKETS);
    } else if !foundRaw {
      r := Failed(NO_RAW_BUCKET);
    } else if !foundProcessed {
      r := Failed(NO_PROCESSED_BUCKET);
    } else {
      r := Buckets(rawDataBucket, processedDataBucket);
    }
  }

  /** What `convert_csv_to_parquet` returns: the encoded bytes, a message string,
      or the ValueError Python raises when it unpacks the locator's error string
      into two names. */
  datatype Converted = Parquet(data: Bytes) | Message(text: string) | UnpackError

  /** `convert_csv_to_parquet(csv)`: `bucketNames` is the bucket listing,
      `getObject(bucket, key)` the object's text or None when the read fails,
      `toParquet` the columnar encoding of a CSV text. */
  function ConvertCsvToParquet(csv: string, bucketNames: seq<string>,
                               getObject: (string, string) -> Option<string>,
                               toParquet: string -> Bytes): (r: Converted)
    ensures !EndsWith(csv, ".csv") ==> r == Message(csv + " is not a .csv file.")
    ensures EndsWith(csv, ".csv") && !Locate(bucketNames).Buckets? ==> r == UnpackError
    ensures EndsWith(csv, ".csv") && Locate(bucketNames).Buckets? ==>
      var raw := Locate(bucketNames).raw;
      && (getObject(raw, csv).None? ==> r == Message(NOT_FOUND))
      && (getObject(raw, csv).Some? ==> r == Parquet(toParquet(getObject(raw, csv).value)))
  {
    LastFourIsCsvSuffix(csv);
    if LastChars(csv, 4) != ".csv" then Message(csv + " is not a .csv file.")
    else
      match Locate(bucketNames)
      case Failed(_) => UnpackError
      case Buckets(raw, _) =>
        match getObject(raw, csv)
        case None => Message(NOT_FOUND)
        case Some(text) => Parquet(toParquet(text))
  }

  /** A name that does not end in ".csv" is rejected whatever the storage holds:
      the rejection happens before any storage call. */
  lemma RejectionIsStorageFree(csv: string,
                               names1: seq<string>, get1: (string, string) -> Option<string>, enc1: string -> Bytes,
                               names2: seq<string>, get2: (string, string) -> Option<string>, enc2: string -> Bytes)
    requires !EndsWith(csv, ".csv")
    ensures ConvertCsvToParquet(csv, names1, get1, enc1) == ConvertCsvToParquet(csv, names2, get2, enc2)
    ensures ConvertCsvToParquet(csv, names1, get1, enc1).Message?
  {
  }
}
