/** The in-memory store of livestock rows: the full list loaded from the
    CSV file (`rawData`) and the result of the last year-and-location filter
    (`currentData`), with the queries the charts make of them. */
module Database {
  import opened Common

  /** A row's count: `null` for the `NA` marker, otherwise what `parseInt`
      gave, which is an integer or NaN. */
  datatype Count = Null | Int(value: int) | NaN

  datatype LivestockData = LivestockData(
    geographyType: string,
    geographyName: string,
    year: string,
    animal: string,
    count: Count)

  /** The animals' counts for one year and location. */
  datatype FilteredData = FilteredData(year: string, location: string, data: map<string, Count>)

  // ---------------------------------------------------------------------
  // Specification of `filterData`

  /** The rows of `year` at `location`, in order (the `filter` call). */
  function Matching(rows: seq<LivestockData>, year: string, location: string): (r: seq<LivestockData>)
    ensures forall x :: x in r <==> x in rows && x.year == year && x.geographyName == location
  {
    if rows == [] then []
    else
      var x := rows[|rows| - 1];
      assert rows == rows[..|rows| - 1] + [x];
      Matching(rows[..|rows| - 1], year, location)
        + (if x.year == year && x.geographyName == location then [x] else [])
  }

  /** The dictionary the `forEach` over the matching rows fills: each row
      sets its animal's entry, so later rows overwrite earlier ones. */
  function LastWins(rows: seq<LivestockData>): (r: map<string, Count>)
    ensures forall a :: a in r <==> a in Animals(rows)
  {
    if rows == [] then map[]
    else
      var x := rows[|rows| - 1];
      LastWins(rows[..|rows| - 1])[x.animal := x.count]
  }

  /** The last row of `rows` about `animal`, if any: an independent account
      of which count an animal ends up with. */
  function LastRowOf(rows: seq<LivestockData>, animal: string): (r: Option<LivestockData>)
    ensures r.Some? ==> r.value in rows && r.value.animal == animal
    ensures r.None? <==> forall i :: 0 <= i < |rows| ==> rows[i].animal != animal
  {
    if rows == [] then None
    else if rows[|rows| - 1].animal == animal then Some(rows[|rows| - 1])
    else
      var r := LastRowOf(rows[..|rows| - 1], animal);
      assert forall i :: 0 <= i < |rows| - 1 ==> rows[..|rows| - 1][i] == rows[i];
      r
  }

  /** What `filterData(year, location)` returns and stores. */
  function Filtered(rows: seq<LivestockData>, year: string, location: string): (r: Option<FilteredData>)
    ensures r.None? <==> forall x :: x in rows ==> !(x.year == year && x.geographyName == location)
    ensures r.Some? ==> r.value.year == year && r.value.location == location
  {
    var m := Matching(rows, year, location);
    if m == [] then None
    else
      assert m[0] in m;
      Some(FilteredData(year, location, LastWins(m)))
  }

  /** The dictionary holds an entry for exactly the animals of `rows`, and
      each entry is the count of the animal's last row. */
  lemma {:induction false} LastWinsCorrect(rows: seq<LivestockData>)
    ensures forall a :: a in LastWins(rows) <==> LastRowOf(rows, a).Some?
    ensures forall a :: a in LastWins(rows) ==> LastWins(rows)[a] == LastRowOf(rows, a).value.count
  {
    if rows != [] {
      LastWinsCorrect(rows[..|rows| - 1]);
    }
  }

  /** `filterData` gives null exactly when no row is of the year and the
      location; otherwise it carries the arguments, an entry for exactly the
      animals of the matching rows, and for each the count of its last
      matching row. */
  lemma FilteredCorrect(rows: seq<LivestockData>, year: string, location: string)
    ensures Filtered(rows, year, location).None? <==>
              forall i :: 0 <= i < |rows| ==> !(rows[i].year == year && rows[i].geographyName == location)
    ensures var f := Filtered(rows, year, location);
      f.Some? ==>
        && f.value.year == year && f.value.location == location
        && (forall a :: a in f.value.data <==>
              exists x :: x in rows && x.year == year && x.geographyName == location && x.animal == a)
        && (forall a :: a in f.value.data ==>
              f.value.data[a] == LastRowOf(Matching(rows, year, location), a).value.count)
  {
    var m := Matching(rows, year, location);
    LastWinsCorrect(m);
    if m == [] {
      forall i | 0 <= i < |rows|
        ensures !(rows[i].year == year && rows[i].geographyName == location)
      {
        assert rows[i] in rows;
      }
    } else {
      assert m[0] in m;
      forall a
        ensures a in LastWins(m) <==>
                  exists x :: x in rows && x.year == year && x.geographyName == location && x.animal == a
      {
        if a in LastWins(m) {
          var x := LastRowOf(m, a).value;
          assert x in rows && x.year == year && x.geographyName == location && x.animal == a;
        }
        if exists x :: x in rows && x.year == year && x.geographyName == location && x.animal == a {
          var x :| x in rows && x.year == year && x.geographyName == location && x.animal == a;
          var i :| 0 <= i < |m| && m[i] == x;
          assert m[i].animal == a;
        }
      }
    }
  }

  // ---------------------------------------------------------------------
  // Specification of the key lists

  function Years(rows: seq<LivestockData>): (r: seq<string>)
    ensures |r| == |rows| && forall i :: 0 <= i < |rows| ==> r[i] == rows[i].year
  {
    if rows == [] then [] else Years(rows[..|rows| - 1]) + [rows[|rows| - 1].year]
  }

  function Locations(rows: seq<LivestockData>): (r: seq<string>)
    ensures |r| == |rows| && forall i :: 0 <= i < |rows| ==> r[i] == rows[i].geographyName
  {
    if rows == [] then [] else Locations(rows[..|rows| - 1]) + [rows[|rows| - 1].geographyName]
  }

  function Animals(rows: seq<LivestockData>): (r: seq<string>)
    ensures |r| == |rows| && forall i :: 0 <= i < |rows| ==> r[i] == rows[i].animal
  {
    if rows == [] then [] else Animals(rows[..|rows| - 1]) + [rows[|rows| - 1].animal]
  }

  /** `Array.from(set).sort()` for a `Set` filled by `add` from `values`: the
      distinct values in ascending order. */
  method SortedDistinct(values: seq<string>) returns (r: seq<string>)
    ensures r == SortStrings(Dedup(values))
    ensures StrictlySortedBy(r, Identity)
    ensures forall x :: x in r <==> x in values
  {
    var seen: set<string> := {};
    var inserted: seq<string> := [];
    var i := 0;
    while i < |values|
      invariant 0 <= i <= |values|
      invariant inserted == Dedup(values[..i])
      invariant forall x :: x in seen <==> x in inserted
    {
      assert values[..i + 1] == values[..i] + [values[i]];
      DedupSnoc(values[..i], values[i]);
      if values[i] !in seen {
        seen := seen + {values[i]};
        inserted := inserted + [values[i]];
      }
      i := i + 1;
    }
    assert values[..i] == values;
    DedupMembers(values);
    SortStringsDistinct(inserted);
    r := SortStrings(inserted);
  }

  // ---------------------------------------------------------------------
  // The store

  /** The module state of the database: the loaded rows and the last
      filter result. */
  class Store {
    var rawData: seq<LivestockData>
    var currentData: Option<FilteredData>

    /** Nothing loaded and nothing filtered yet. */
    constructor()
      ensures rawData == [] && currentData == None
    {
      rawData := [];
      currentData := None;
    }

    /** `setRawData`: replaces the loaded rows; `getRawData` then returns
        exactly them. */
    method SetRawData(data: seq<LivestockData>)
      modifies this
      ensures GetRawData() == data
      ensures currentData == old(currentData)
    {
      rawData := data;
    }

    /** `getRawData`: the rows last stored. */
    function GetRawData(): (r: seq<LivestockData>)
      reads this
      ensures r == rawData
    {
      rawData
    }

    /** `getCurrentData`: the result of the last filter, if any. */
    function GetCurrentData(): (r: Option<FilteredData>)
      reads this
      ensures r == currentData
    {
      currentData
    }

    /** `filterData`: the counts for `year` at `location`, last row winning
        per animal, or None when no row matches; the result becomes the
        current data, and the loaded rows are left alone. */
    method FilterData(year: string, location: string) returns (r: Option<FilteredData>)
      modifies this
      ensures r == Filtered(old(rawData), year, location)
      ensures GetCurrentData() == r
      ensures rawData == old(rawData)
    {
      var filtered := Matching(rawData, year, location);
      if |filtered| == 0 {
        currentData := None;
        return None;
      }
      var animalData: map<string, Count> := map[];
      var i := 0;
      while i < |filtered|
        invariant 0 <= i <= |filtered|
        invariant animalData == LastWins(filtered[..i])
      {
        assert filtered[..i + 1][..i] == filtered[..i];
        animalData := animalData[filtered[i].animal := filtered[i].count];
        i := i + 1;
      }
      assert filtered[..i] == filtered;
      currentData := Some(FilteredData(year, location, animalData));
      return currentData;
    }

    /** `getAvailableYears`: every year of the loaded rows, once, ascending. */
    method GetAvailableYears() returns (r: seq<string>)
      ensures StrictlySortedBy(r, Identity)
      ensures forall y :: y in r <==> exists i :: 0 <= i < |rawData| && rawData[i].year == y
    {
      r := SortedDistinct(Years(rawData));
    }

    /** `getAvailableLocations`: every location of the loaded rows, once,
        ascending. */
    method GetAvailableLocations() returns (r: seq<string>)
      ensures StrictlySortedBy(r, Identity)
      ensures forall l :: l in r <==> exists i :: 0 <= i < |rawData| && rawData[i].geographyName == l
    {
      r := SortedDistinct(Locations(rawData));
    }

    /** `getAnimalTypes`: every animal of the loaded rows, once, ascending. */
    method GetAnimalTypes() returns (r: seq<string>)
      ensures StrictlySortedBy(r, Identity)
      ensures forall a :: a in r <==> exists i :: 0 <= i < |rawData| && rawData[i].animal == a
    {
      r := SortedDistinct(Animals(rawData));
    }
  }
}
