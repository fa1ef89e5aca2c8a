/**
 * The geocoding pass over the extracted entries
 * (preprocessing/perform_geolocation.py): entries that already hold both
 * coordinates are counted and skipped, entries with an address are looked
 * up, and a successful lookup adds `lat` and `lon` to the entry in place.
 */
module PerformGeolocation {
  import opened Wrappers
  import opened Records

  /**
   * The address lookup behind `geocode_address`, with the rounding of both
   * coordinates to five decimals folded in: coordinates, or `None` when the
   * lookup finds nothing or fails.
   */
  type Geocoder = string -> Option<(Coord, Coord)>

  /** `geocode_address`: an empty address is answered with `None` without any lookup. */
  function GeocodeAddress(address: string, lookup: Geocoder): Option<(Coord, Coord)>
  {
    if address == "" then None else lookup(address)
  }

  /** `entry.get("address", "")` as text; a missing or non-text address reads as empty. */
  function AddressOf(e: Record): string
  {
    if "address" in e && e["address"].Str? then e["address"].s else ""
  }

  /** The entries the pass hands to the geocoder: no complete coordinate pair, but an address. */
  predicate NeedsLookup(e: Record)
  {
    !HasCoords(e) && AddressOf(e) != ""
  }

  /** The lookup outcome the pass acts on for an entry it does not skip. */
  predicate GainsCoords(e: Record, lookup: Geocoder)
  {
    !HasCoords(e) && GeocodeAddress(AddressOf(e), lookup).Some?
  }

  /**
   * One entry after the pass: unchanged unless it lacked a coordinate and
   * its address was found, in which case it gains (or has overwritten)
   * `lat` and `lon` and nothing else.
   */
  function GeocodeEntry(e: Record, lookup: Geocoder): (r: Record)
    ensures !GainsCoords(e, lookup) ==> r == e
    ensures GainsCoords(e, lookup) ==> NeedsLookup(e)
    ensures HasCoords(r) <==> HasCoords(e) || GainsCoords(e, lookup)
    ensures GainsCoords(e, lookup) ==>
              var c := lookup(AddressOf(e)).value;
              r["lat"] == Num(c.0) && r["lon"] == Num(c.1)
    ensures r.Keys == e.Keys + (if GainsCoords(e, lookup) then {"lat", "lon"} else {})
    ensures forall k :: k in e && k != "lat" && k != "lon" ==> r[k] == e[k]
  {
    if HasCoords(e) then e
    else
      match GeocodeAddress(AddressOf(e), lookup)
      case None => e
      case Some(c) => e["lat" := Num(c.0)]["lon" := Num(c.1)]
  }

  /** The whole list after the pass: same length and order, each entry geocoded on its own. */
  function GeocodeAll(es: seq<Record>, lookup: Geocoder): (r: seq<Record>)
    ensures |r| == |es|
    ensures forall i :: 0 <= i < |es| ==> r[i] == GeocodeEntry(es[i], lookup)
  {
    if es == [] then []
    else GeocodeAll(es[..|es| - 1], lookup) + [GeocodeEntry(es[|es| - 1], lookup)]
  }

  /** How many entries gain coordinates in the pass. */
  function CountNewly(es: seq<Record>, lookup: Geocoder): nat
  {
    if es == [] then 0
    else CountNewly(es[..|es| - 1], lookup) + (if GainsCoords(es[|es| - 1], lookup) then 1 else 0)
  }

  /** The addresses handed to the geocoder, in list order. */
  function Lookups(es: seq<Record>): seq<string>
  {
    if es == [] then []
    else Lookups(es[..|es| - 1]) + (if NeedsLookup(es[|es| - 1]) then [AddressOf(es[|es| - 1])] else [])
  }

  /**
   * One iteration of the loop of `geocode_entries`: skip an entry that
   * has both coordinates, otherwise look its address up (when it has one)
   * and store the coordinates found in the entry itself. Reports whether
   * the entry was already geocoded and whether it gained coordinates;
   * `asked` is the geocoder call made, if any.
   */
  method GeocodeAt(entries: array<Record>, i: nat, lookup: Geocoder)
    returns (already: bool, gained: bool, ghost asked: seq<string>)
    requires i < entries.Length
    modifies entries
    ensures entries[i] == GeocodeEntry(old(entries[i]), lookup)
    ensures forall k :: 0 <= k < entries.Length && k != i ==> entries[k] == old(entries[k])
    ensures already == HasCoords(old(entries[i]))
    ensures gained == GainsCoords(old(entries[i]), lookup)
    ensures asked == if NeedsLookup(old(entries[i])) then [AddressOf(old(entries[i]))] else []
  {
    var entry := entries[i];
    var address := AddressOf(entry);
    already, gained, asked := false, false, [];
    if HasCoords(entry) {
      already := true;
      return;
    }
    if address != "" {
      var coords := GeocodeAddress(address, lookup);
      asked := [address];
      if coords.Some? {
        entries[i] := entry["lat" := Num(coords.value.0)]["lon" := Num(coords.value.1)];
        gained := true;
      }
    }
  }

  /**
   * `geocode_entries`: the entries are updated in place; the counters are
   * the number of entries that gained coordinates, the number that hold
   * coordinates afterwards, the list length and the number already
   * geocoded. `queried` records the geocoder's arguments, in call order.
   */
  method GeocodeEntries(entries: array<Record>, lookup: Geocoder)
    returns (newlyGeocoded: nat, totalWithCoords: nat, totalEntries: nat, alreadyGeocoded: nat, ghost queried: seq<string>)
    modifies entries
    ensures entries[..] == GeocodeAll(old(entries[..]), lookup)
    ensures newlyGeocoded == CountNewly(old(entries[..]), lookup)
    ensures alreadyGeocoded == CountWithCoords(old(entries[..]))
    ensures totalEntries == entries.Length
    ensures totalWithCoords == newlyGeocoded + alreadyGeocoded
    ensures queried == Lookups(old(entries[..]))
  {
    ghost var before := entries[..];
    newlyGeocoded, alreadyGeocoded, queried := 0, 0, [];
    totalEntries := entries.Length;
    var i := 0;
    while i < entries.Length
      invariant 0 <= i <= entries.Length
      invariant forall k :: 0 <= k < i ==> entries[k] == GeocodeEntry(before[k], lookup)
      invariant forall k :: i <= k < entries.Length ==> entries[k] == before[k]
      invariant newlyGeocoded == CountNewly(before[..i], lookup)
      invariant alreadyGeocoded == CountWithCoords(before[..i])
      invariant queried == Lookups(before[..i])
    {
      PassStep(before, i, lookup);
      var already, gained, asked := GeocodeAt(entries, i, lookup);
      queried := queried + asked;
      if already {
        alreadyGeocoded := alreadyGeocoded + 1;
      }
      if gained {
        newlyGeocoded := newlyGeocoded + 1;
      }
      i := i + 1;
    }
    assert before[..i] == before;
    totalWithCoords := newlyGeocoded + alreadyGeocoded;
  }

  /** Extending the processed prefix by one entry extends each count by that entry's contribution. */
  lemma PassStep(es: seq<Record>, i: nat, lookup: Geocoder)
    requires i < |es|
    ensures CountNewly(es[..i + 1], lookup) == CountNewly(es[..i], lookup) + (if GainsCoords(es[i], lookup) then 1 else 0)
    ensures CountWithCoords(es[..i + 1]) == CountWithCoords(es[..i]) + (if HasCoords(es[i]) then 1 else 0)
    ensures Lookups(es[..i + 1]) == Lookups(es[..i]) + (if NeedsLookup(es[i]) then [AddressOf(es[i])] else [])
  {
    assert es[..i + 1][..i] == es[..i];
  }

  /** An entry gains coordinates only if it had none: the two counters never overlap, so together they never exceed the list. */
  lemma {:induction false} CountsBounded(es: seq<Record>, lookup: Geocoder)
    ensures CountNewly(es, lookup) + CountWithCoords(es) <= |es|
  {
    if es != [] {
      CountsBounded(es[..|es| - 1], lookup);
    }
  }

  /** After the pass, the entries with coordinates are those that had them plus those newly geocoded. */
  lemma {:induction false} CoordsAfterPass(es: seq<Record>, lookup: Geocoder)
    ensures CountWithCoords(GeocodeAll(es, lookup)) == CountWithCoords(es) + CountNewly(es, lookup)
  {
    if es != [] {
      var init := es[..|es| - 1];
      CoordsAfterPass(init, lookup);
      var after := GeocodeAll(es, lookup);
      assert after[..|after| - 1] == GeocodeAll(init, lookup);
    }
  }

  /**
   * The geocoder is asked at most once per entry, only for entries lacking
   * a coordinate, and only with non-empty addresses.
   */
  lemma {:induction false} LookupsBounded(es: seq<Record>)
    ensures |Lookups(es)| + CountWithCoords(es) <= |es|
    ensures forall a :: a in Lookups(es) ==> a != ""
  {
    if es != [] {
      LookupsBounded(es[..|es| - 1]);
    }
  }

  /** Every address looked up is the address of an entry that needed it. */
  lemma {:induction false} LookupsComeFromEntries(es: seq<Record>, a: string)
    requires a in Lookups(es)
    ensures exists i :: 0 <= i < |es| && NeedsLookup(es[i]) && AddressOf(es[i]) == a
  {
    var init := es[..|es| - 1];
    if a in Lookups(init) {
      LookupsComeFromEntries(init, a);
      var i :| 0 <= i < |init| && NeedsLookup(init[i]) && AddressOf(init[i]) == a;
      assert es[i] == init[i];
    } else {
      assert NeedsLookup(es[|es| - 1]) && AddressOf(es[|es| - 1]) == a;
    }
  }

  /** Only the newly geocoded entries gain keys; no existing value other than `lat` and `lon` changes. */
  lemma PassChangesOnlyCoords(es: seq<Record>, lookup: Geocoder, i: int)
    requires 0 <= i < |es|
    ensures var e, r := es[i], GeocodeAll(es, lookup)[i];
            && (r.Keys - e.Keys) <= {"lat", "lon"}
            && e.Keys <= r.Keys
            && (forall k :: k in e && k != "lat" && k != "lon" ==> r[k] == e[k])
            && (!GainsCoords(e, lookup) ==> r == e)
  {
  }

  /**
   * A second pass, with a geocoder that may answer differently (a lookup
   * that failed on the network the first time may now succeed): an entry
   * that has coordinates after the first pass is left as it is, and an
   * entry that has none is geocoded as if the first pass had not run.
   */
  lemma PassAfterPass(es: seq<Record>, first: Geocoder, second: Geocoder)
    ensures |GeocodeAll(GeocodeAll(es, first), second)| == |es|
    ensures forall i :: 0 <= i < |es| && HasCoords(GeocodeAll(es, first)[i]) ==>
              GeocodeAll(GeocodeAll(es, first), second)[i] == GeocodeAll(es, first)[i]
    ensures forall i :: 0 <= i < |es| && !HasCoords(GeocodeAll(es, first)[i]) ==>
              GeocodeAll(GeocodeAll(es, first), second)[i] == GeocodeEntry(es[i], second)
  {
    var once := GeocodeAll(es, first);
    forall i | 0 <= i < |es| && !HasCoords(once[i])
      ensures once[i] == es[i]
    {
      assert !GainsCoords(es[i], first);
    }
  }

  /** A second pass whose geocoder answers as the first one did changes nothing and geocodes nothing more. */
  lemma SecondPassChangesNothing(es: seq<Record>, lookup: Geocoder)
    ensures GeocodeAll(GeocodeAll(es, lookup), lookup) == GeocodeAll(es, lookup)
    ensures CountNewly(GeocodeAll(es, lookup), lookup) == 0
  {
    var once := GeocodeAll(es, lookup);
    PassAfterPass(es, lookup, lookup);
    forall i | 0 <= i < |es|
      ensures GeocodeEntry(once[i], lookup) == once[i]
    {
      if !HasCoords(once[i]) {
        assert !GainsCoords(es[i], lookup);
      }
    }
    NothingNewAfterPass(once, lookup);
  }

  /** A list whose entries all come back unchanged has nothing left to geocode. */
  lemma {:induction false} NothingNewAfterPass(es: seq<Record>, lookup: Geocoder)
    requires forall i :: 0 <= i < |es| ==> GeocodeEntry(es[i], lookup) == es[i]
    ensures CountNewly(es, lookup) == 0
  {
    if es != [] {
      var last := es[|es| - 1];
      assert GeocodeEntry(last, lookup) == last;
      NothingNewAfterPass(es[..|es| - 1], lookup);
    }
  }
}
