/**
 * The report of geocoding results (preprocessing/find_failed_geocoding.py):
 * the entries are split into those lacking a coordinate ("failed") and
 * those holding both ("succeeded"), each reduced to the four fields the
 * report needs, and one output line is written per reduced record.
 */
module FindFailedGeocoding {
  import opened Wrappers
  import opened Text
  import opened Records
  import PerformGeolocation

  /** The fields read, in order, from an entry lacking a coordinate. */
  const FailedKeys: seq<string> := ["name", "location", "address", "address_manual"]

  /** The fields read, in order, from an entry holding both coordinates. */
  const SucceededKeys: seq<string> := ["name", "location", "lat", "lon"]

  /** The `KeyError` that stops the script: the entry's position and the missing key. */
  datatype KeyError = KeyError(index: nat, key: string)

  /** The two lists the script builds. */
  datatype Buckets = Buckets(failed: seq<Record>, succeeded: seq<Record>)

  /** The fields the script reads from an entry, chosen by the same test as the script's branch. */
  function KeysRead(e: Record): seq<string>
  {
    if HasCoords(e) then SucceededKeys else FailedKeys
  }

  /**
   * Where the first missing key of `keys` is (the subscript that raises
   * `KeyError`, evaluating the keys left to right), or `|keys|` when all
   * are present.
   */
  function MissingAt(e: Record, keys: seq<string>): (j: nat)
    ensures j <= |keys|
    ensures forall m :: 0 <= m < j ==> keys[m] in e
    ensures j < |keys| ==> keys[j] !in e
    ensures j == |keys| <==> forall k :: k in keys ==> k in e
  {
    if keys == [] then 0
    else if keys[0] !in e then 0
    else
      var rest := MissingAt(e, keys[1..]);
      assert forall m :: 1 <= m < |keys| ==> keys[m] == keys[1..][m - 1];
      1 + rest
  }

  /** Every field the script reads from `e` is present. */
  predicate HasKeysRead(e: Record)
  {
    forall k :: k in KeysRead(e) ==> k in e
  }

  /** The dict literal built from an entry: the listed keys with the entry's values. */
  function Project(e: Record, keys: seq<string>): Record
  {
    map k | k in keys && k in e :: e[k]
  }

  /** One loop iteration: extend the lists, or stop at the first entry with a missing field. */
  function Add(acc: Result<Buckets, KeyError>, e: Record, index: nat): Result<Buckets, KeyError>
  {
    match acc
    case Failure(_) => acc
    case Success(b) =>
      var keys := KeysRead(e);
      var j := MissingAt(e, keys);
      if j < |keys| then Failure(KeyError(index, keys[j]))
      else if HasCoords(e) then Success(Buckets(b.failed, b.succeeded + [Project(e, SucceededKeys)]))
      else Success(Buckets(b.failed + [Project(e, FailedKeys)], b.succeeded))
  }

  /** The outcome of the script's loop over the entries. */
  function Partition(es: seq<Record>): Result<Buckets, KeyError>
  {
    if es == [] then Success(Buckets([], []))
    else Add(Partition(es[..|es| - 1]), es[|es| - 1], |es| - 1)
  }

  /** The entries lacking a coordinate, in order. */
  function Lacking(es: seq<Record>): seq<Record>
  {
    if es == [] then []
    else Lacking(es[..|es| - 1]) + (if HasCoords(es[|es| - 1]) then [] else [es[|es| - 1]])
  }

  /** The entries holding both coordinates, in order. */
  function Located(es: seq<Record>): seq<Record>
  {
    if es == [] then []
    else Located(es[..|es| - 1]) + (if HasCoords(es[|es| - 1]) then [es[|es| - 1]] else [])
  }

  /** Each entry reduced to the given fields, in order. */
  function ProjectAll(es: seq<Record>, keys: seq<string>): (r: seq<Record>)
    ensures |r| == |es|
    ensures forall i :: 0 <= i < |es| ==> r[i] == Project(es[i], keys)
  {
    if es == [] then []
    else ProjectAll(es[..|es| - 1], keys) + [Project(es[|es| - 1], keys)]
  }

  lemma PartitionStep(es: seq<Record>, i: nat)
    requires i < |es|
    ensures Partition(es[..i + 1]) == Add(Partition(es[..i]), es[i], i)
  {
    assert es[..i + 1][..i] == es[..i];
  }

  /** The script's top-level loop: the two lists, or the `KeyError` of the first entry missing a field it reads. */
  method FindFailed(entries: seq<Record>) returns (r: Result<Buckets, KeyError>)
    ensures r == Partition(entries)
  {
    var failed, succeeded := [], [];
    var i := 0;
    while i < |entries|
      invariant 0 <= i <= |entries|
      invariant Partition(entries[..i]) == Success(Buckets(failed, succeeded))
    {
      PartitionStep(entries, i);
      var entry := entries[i];
      if !("lat" in entry && "lon" in entry) {
        var j := MissingAt(entry, FailedKeys);
        if j < |FailedKeys| {
          FailureStays(entries, i + 1);
          return Failure(KeyError(i, FailedKeys[j]));
        }
        failed := failed + [Project(entry, FailedKeys)];
      } else {
        var j := MissingAt(entry, SucceededKeys);
        if j < |SucceededKeys| {
          FailureStays(entries, i + 1);
          return Failure(KeyError(i, SucceededKeys[j]));
        }
        succeeded := succeeded + [Project(entry, SucceededKeys)];
      }
      i := i + 1;
    }
    assert entries[..i] == entries;
    r := Success(Buckets(failed, succeeded));
  }

  /** Once a prefix raised `KeyError`, the whole run raises the same one. */
  lemma {:induction false} FailureStays(es: seq<Record>, n: nat)
    requires n <= |es| && Partition(es[..n]).Failure?
    ensures Partition(es) == Partition(es[..n])
    decreases |es| - n
  {
    if n < |es| {
      PartitionStep(es, n);
      FailureStays(es, n + 1);
    } else {
      assert es[..n] == es;
    }
  }

  /** One step keeps going exactly when the run so far did and the entry has the fields read from it. */
  lemma AddSucceedsIff(acc: Result<Buckets, KeyError>, e: Record, index: nat)
    ensures Add(acc, e, index).Success? <==> acc.Success? && HasKeysRead(e)
  {
  }

  /** The script runs to the end exactly when every entry has every field it reads. */
  lemma {:induction false} PartitionSucceedsIff(es: seq<Record>)
    ensures Partition(es).Success? <==> forall i :: 0 <= i < |es| ==> HasKeysRead(es[i])
  {
    if es != [] {
      var init, last := es[..|es| - 1], es[|es| - 1];
      PartitionSucceedsIff(init);
      AddSucceedsIff(Partition(init), last, |es| - 1);
      if forall i :: 0 <= i < |es| ==> HasKeysRead(es[i]) {
        forall i | 0 <= i < |init|
          ensures HasKeysRead(init[i])
        {
          assert init[i] == es[i];
        }
      } else {
        var i :| 0 <= i < |es| && !HasKeysRead(es[i]);
        if i < |init| {
          assert init[i] == es[i];
        }
      }
    }
  }

  /** The `KeyError` names the first entry missing a field, and the first field it misses. */
  lemma {:induction false} PartitionFailsAtFirst(es: seq<Record>)
    requires Partition(es).Failure?
    ensures var err := Partition(es).error;
            && err.index < |es|
            && !HasKeysRead(es[err.index])
            && err.key == KeysRead(es[err.index])[MissingAt(es[err.index], KeysRead(es[err.index]))]
            && forall i :: 0 <= i < err.index ==> HasKeysRead(es[i])
  {
    var init := es[..|es| - 1];
    assert forall i :: 0 <= i < |init| ==> init[i] == es[i];
    if Partition(init).Failure? {
      PartitionFailsAtFirst(init);
    } else {
      PartitionSucceedsIff(init);
    }
  }

  /**
   * A run that reaches the end puts every entry lacking a coordinate,
   * reduced, into `failed` and every other entry, reduced, into
   * `succeeded`, both in input order.
   */
  lemma {:induction false} PartitionIsFilter(es: seq<Record>)
    requires Partition(es).Success?
    ensures Partition(es).value.failed == ProjectAll(Lacking(es), FailedKeys)
    ensures Partition(es).value.succeeded == ProjectAll(Located(es), SucceededKeys)
  {
    if es != [] {
      var init := es[..|es| - 1];
      assert Partition(init).Success?;
      PartitionIsFilter(init);
    }
  }

  /** Every entry goes to exactly one list: the sizes add up, and `succeeded` has one record per located entry. */
  lemma {:induction false} FilterSizes(es: seq<Record>)
    ensures |Lacking(es)| + |Located(es)| == |es|
    ensures |Located(es)| == CountWithCoords(es)
  {
    if es != [] {
      FilterSizes(es[..|es| - 1]);
    }
  }

  /** An entry is among the failed exactly when it lacks a coordinate, and among the succeeded exactly when it has both. */
  lemma {:induction false} FilterMembers(es: seq<Record>, e: Record)
    ensures e in Lacking(es) <==> e in es && !HasCoords(e)
    ensures e in Located(es) <==> e in es && HasCoords(e)
  {
    if es != [] {
      var init := es[..|es| - 1];
      FilterMembers(init, e);
      assert es == init + [es[|es| - 1]];
    }
  }

  /** A failed record holds exactly name, location, address and manual address, copied from its entry. */
  lemma FailedRecordShape(e: Record)
    requires !HasCoords(e) && HasKeysRead(e)
    ensures var r := Project(e, FailedKeys);
            && r.Keys == {"name", "location", "address", "address_manual"}
            && forall k :: k in r ==> r[k] == e[k]
  {
    assert forall k :: k in FailedKeys ==> k in e;
  }

  /** A succeeded record holds exactly name, location and both coordinates, copied from its entry. */
  lemma SucceededRecordShape(e: Record)
    requires HasCoords(e) && HasKeysRead(e)
    ensures var r := Project(e, SucceededKeys);
            && r.Keys == {"name", "location", "lat", "lon"}
            && forall k :: k in r ==> r[k] == e[k]
  {
    assert forall k :: k in SucceededKeys ==> k in e;
  }

  /**
   * Records fresh from a yearly extractor have no `location` field, so the
   * script stops with `KeyError('location')` at the first of them.
   */
  lemma ExtractedEntriesLackLocation(es: seq<Record>)
    requires es != [] && IsBudgetEntry(es[0])
    ensures Partition(es) == Failure(KeyError(0, "location"))
  {
    var e := es[0];
    assert "lat" !in e;
    assert MissingAt(e, FailedKeys) == 1 by {
      assert FailedKeys[0] == "name" && "name" in e;
      assert FailedKeys[1] == "location" && "location" !in e;
    }
    assert Partition(es[..1]) == Failure(KeyError(0, "location")) by {
      assert es[..1][..0] == [];
    }
    FailureStays(es, 1);
  }

  /**
   * Run after a geocoding pass, the report lists as succeeded the entries
   * that already had coordinates plus those the pass geocoded.
   */
  lemma ReportAfterPass(es: seq<Record>, lookup: PerformGeolocation.Geocoder)
    requires Partition(PerformGeolocation.GeocodeAll(es, lookup)).Success?
    ensures |Partition(PerformGeolocation.GeocodeAll(es, lookup)).value.succeeded| ==
            CountWithCoords(es) + PerformGeolocation.CountNewly(es, lookup)
  {
    var after := PerformGeolocation.GeocodeAll(es, lookup);
    PartitionIsFilter(after);
    FilterSizes(after);
    PerformGeolocation.CoordsAfterPass(es, lookup);
  }

  // ---------------------------------------------------------------------
  // The output lines
  // ---------------------------------------------------------------------

  /** Python's `str()` of a JSON integer. */
  function IntText(n: int): string
  {
    if n < 0 then "-" + DecimalText(-n) else DecimalText(n)
  }

  /** How an f-string shows a JSON value; a coordinate's float text is left to `showCoord`. */
  function Show(v: Value, showCoord: Coord -> string): string
  {
    match v
    case Str(s) => s
    case Int(n) => IntText(n)
    case Bool(b) => if b then "True" else "False"
    case Num(c) => showCoord(c)
    case Null => "None"
  }

  const Indent := "        "

  /** The line printed for a failed record: its key for the manual address table, with a placeholder address. */
  function FailedLine(r: Record, showCoord: Coord -> string): string
    requires "name" in r && "location" in r
  {
    Indent + "(\"" + Show(r["name"], showCoord) + "\", \"" + Show(r["location"], showCoord) + "\"): \"Reja 1\","
  }

  /** The line printed for a succeeded record: its key and its coordinates. */
  function SucceededLine(r: Record, showCoord: Coord -> string): string
    requires "name" in r && "location" in r && "lat" in r && "lon" in r
  {
    Indent + "(\"" + Show(r["name"], showCoord) + "\", \"" + Show(r["location"], showCoord) + "\"): ("
    + Show(r["lat"], showCoord) + ", " + Show(r["lon"], showCoord) + "),"
  }

  /** Every record has the fields its failed-entry line prints. */
  predicate FailedRecords(rs: seq<Record>)
  {
    forall i :: 0 <= i < |rs| ==> "name" in rs[i] && "location" in rs[i]
  }

  /** Every record has the fields its succeeded-entry line prints. */
  predicate SucceededRecords(rs: seq<Record>)
  {
    forall i :: 0 <= i < |rs| ==> "name" in rs[i] && "location" in rs[i] && "lat" in rs[i] && "lon" in rs[i]
  }

  /** Appending a printable record keeps a list printable. */
  lemma FailedRecordsAppend(rs: seq<Record>, r: Record)
    requires FailedRecords(rs) && "name" in r && "location" in r
    ensures FailedRecords(rs + [r])
  {
  }

  /** Appending a printable record keeps a list printable. */
  lemma SucceededRecordsAppend(rs: seq<Record>, r: Record)
    requires SucceededRecords(rs) && "name" in r && "location" in r && "lat" in r && "lon" in r
    ensures SucceededRecords(rs + [r])
  {
  }

  /** The records of a completed run carry the fields their lines print. */
  lemma {:induction false} BucketsPrintable(es: seq<Record>)
    requires Partition(es).Success?
    ensures FailedRecords(Partition(es).value.failed)
    ensures SucceededRecords(Partition(es).value.succeeded)
  {
    if es != [] {
      var init, e := es[..|es| - 1], es[|es| - 1];
      AddSucceedsIff(Partition(init), e, |es| - 1);
      BucketsPrintable(init);
      var b := Partition(init).value;
      if HasCoords(e) {
        SucceededRecordShape(e);
        SucceededRecordsAppend(b.succeeded, Project(e, SucceededKeys));
        assert Partition(es).value == Buckets(b.failed, b.succeeded + [Project(e, SucceededKeys)]);
      } else {
        FailedRecordShape(e);
        FailedRecordsAppend(b.failed, Project(e, FailedKeys));
        assert Partition(es).value == Buckets(b.failed + [Project(e, FailedKeys)], b.succeeded);
      }
    }
  }

  /** The first printing loop: one line per failed record, in order. */
  method PrintFailed(rs: seq<Record>, showCoord: Coord -> string) returns (lines: seq<string>)
    requires FailedRecords(rs)
    ensures |lines| == |rs|
    ensures forall i :: 0 <= i < |rs| ==> lines[i] == FailedLine(rs[i], showCoord)
  {
    lines := [];
    for i := 0 to |rs|
      invariant |lines| == i
      invariant forall k :: 0 <= k < i ==> lines[k] == FailedLine(rs[k], showCoord)
    {
      lines := lines + [FailedLine(rs[i], showCoord)];
    }
  }

  /** The second printing loop: one line per succeeded record, in order. */
  method PrintSucceeded(rs: seq<Record>, showCoord: Coord -> string) returns (lines: seq<string>)
    requires SucceededRecords(rs)
    ensures |lines| == |rs|
    ensures forall i :: 0 <= i < |rs| ==> lines[i] == SucceededLine(rs[i], showCoord)
  {
    lines := [];
    for i := 0 to |rs|
      invariant |lines| == i
      invariant forall k :: 0 <= k < i ==> lines[k] == SucceededLine(rs[k], showCoord)
    {
      lines := lines + [SucceededLine(rs[i], showCoord)];
    }
  }

  /** The script's output: the failed records' lines, then the succeeded records' lines. */
  method PrintLines(b: Buckets, showCoord: Coord -> string) returns (lines: seq<string>)
    requires FailedRecords(b.failed) && SucceededRecords(b.succeeded)
    ensures |lines| == |b.failed| + |b.succeeded|
    ensures forall i :: 0 <= i < |b.failed| ==> lines[i] == FailedLine(b.failed[i], showCoord)
    ensures forall i :: 0 <= i < |b.succeeded| ==>
              lines[|b.failed| + i] == SucceededLine(b.succeeded[i], showCoord)
  {
    var failedLines := PrintFailed(b.failed, showCoord);
    var succeededLines := PrintSucceeded(b.succeeded, showCoord);
    lines := failedLines + succeededLines;
  }
}
