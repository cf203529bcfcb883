/** What the pipeline assumes of object storage: bucket names are matched
    purely by prefix, object bodies are byte strings, and a call either
    answers or raises. */
module Storage {
  import opened Text

  type Bytes = seq<bv8>

  datatype Option<T> = None | Some(value: T)

  /** The answer of a call that may raise a Python exception with a message. */
  datatype Outcome<T> = Ok(value: T) | Raised(message: string)

  const RAW_PREFIX := "totesys-raw-data-"
  const PROCESSED_PREFIX := "totesys-processed-data-"

  /** Some name in `names` starts with `p`. */
  predicate AnyPrefixed(names: seq<string>, p: string) {
    exists i :: 0 <= i < |names| && StartsWith(names[i], p)
  }

  /** The last name in `names` that starts with `p`. */
  function LastPrefixed(names: seq<string>, p: string): (r: string)
    requires AnyPrefixed(names, p)
    ensures StartsWith(r, p)
    ensures exists k :: (0 <= k < |names| && names[k] == r &&
                         forall j :: k < j < |names| ==> !StartsWith(names[j], p))
  {
    var last := names[|names| - 1];
    if StartsWith(last, p) then last
    else
      var front := names[..|names| - 1];
      assert forall i :: 0 <= i < |front| ==> front[i] == names[i];
      LastPrefixed(front, p)
  }

  /** Seeing one more name: it matches, or an earlier one did. */
  lemma AnyPrefixedStep(names: seq<string>, i: nat, p: string)
    requires i < |names|
    ensures AnyPrefixed(names[..i + 1], p) <==> AnyPrefixed(names[..i], p) || StartsWith(names[i], p)
  {
    assert names[..i + 1][i] == names[i];
    assert forall j :: 0 <= j < i ==> names[..i + 1][j] == names[..i][j];
  }

  /** Seeing one more name: it becomes the last match if it matches. */
  lemma LastPrefixedStep(names: seq<string>, i: nat, p: string)
    requires i < |names| && AnyPrefixed(names[..i + 1], p)
    ensures StartsWith(names[i], p) ==> LastPrefixed(names[..i + 1], p) == names[i]
    ensures !StartsWith(names[i], p) ==>
      AnyPrefixed(names[..i], p) && LastPrefixed(names[..i + 1], p) == LastPrefixed(names[..i], p)
  {
    AnyPrefixedStep(names, i, p);
    assert names[..i + 1][..i] == names[..i];
  }

  /** A match among the first `i` names stays a match among the first `j >= i`. */
  lemma AnyPrefixedMonotone(names: seq<string>, i: nat, j: nat, p: string)
    requires i <= j <= |names|
    ensures AnyPrefixed(names[..i], p) ==> AnyPrefixed(names[..j], p)
  {
    if AnyPrefixed(names[..i], p) {
      var k :| 0 <= k < i && StartsWith(names[..i][k], p);
      assert names[..j][k] == names[..i][k];
    }
  }

  /** No bucket name carries both prefixes: they differ in their ninth character. */
  lemma PrefixesExclusive(name: string)
    ensures !(StartsWith(name, RAW_PREFIX) && StartsWith(name, PROCESSED_PREFIX))
  {
    if StartsWith(name, RAW_PREFIX) && |PROCESSED_PREFIX| <= |name| {
      assert name[8] == RAW_PREFIX[8] == 'r';
      assert name[..|PROCESSED_PREFIX|][8] != PROCESSED_PREFIX[8];
    }
  }
}
