/** The pivot both charts of section 2 draw from: the rows of one location
    turned into one record per year, `{ year, [animal]: count }`, ordered by
    year; and the small derivations around it (the animal keys of the
    records and the years that get an axis tick). */
module MultiYear {
  import opened Common
  import opened Database

  // ---------------------------------------------------------------------
  // A JavaScript Map

  /** A `Map` with string keys: the keys in insertion order and the entries. */
  datatype OrderedMap<V> = OrderedMap(keys: seq<string>, entries: map<string, V>)

  /** Every key is listed once, and exactly the keys with an entry are listed. */
  ghost predicate OrderedMapValid<V>(m: OrderedMap<V>)
  {
    NoDup(m.keys) && forall k :: k in m.entries <==> k in m.keys
  }

  function EmptyMap<V>(): OrderedMap<V>
  {
    OrderedMap([], map[])
  }

  /** `Map.prototype.set`: a new key goes to the end of the order, a key
      already present keeps its place and takes the new value. */
  function Put<V>(m: OrderedMap<V>, k: string, v: V): (r: OrderedMap<V>)
    ensures r.entries == m.entries[k := v]
  {
    OrderedMap(if k in m.entries then m.keys else m.keys + [k], m.entries[k := v])
  }

  /** One record of the chart data: its year and its animal counts, in the
      order the record's keys were created. A count is never null here. */
  datatype ChartData = ChartData(year: string, counts: OrderedMap<Count>)

  /** What a section's effect hands to `renderChart`: the records, the
      animal list and the selected year. */
  datatype Render = Render(data: seq<ChartData>, animals: seq<string>, selectedYear: string)

  function YearOf(c: ChartData): string
  {
    c.year
  }

  // ---------------------------------------------------------------------
  // Specification of getMultiYearData

  /** The rows of `location`, in order (the `filter` call). */
  function AtLocation(rows: seq<LivestockData>, location: string): (r: seq<LivestockData>)
    ensures forall x :: x in r <==> x in rows && x.geographyName == location
  {
    if rows == [] then []
    else
      var x := rows[|rows| - 1];
      assert rows == rows[..|rows| - 1] + [x];
      AtLocation(rows[..|rows| - 1], location) + (if x.geographyName == location then [x] else [])
  }

  /** The rows whose count is written into the record of `year`: the rows
      of that year whose count is not null, in order. */
  function Counted(rows: seq<LivestockData>, year: string): (r: seq<LivestockData>)
    ensures forall x :: x in r <==> x in rows && x.year == year && x.count != Null
  {
    if rows == [] then []
    else
      var x := rows[|rows| - 1];
      assert rows == rows[..|rows| - 1] + [x];
      Counted(rows[..|rows| - 1], year) + (if x.year == year && x.count != Null then [x] else [])
  }

  /** The inner map of `year` after the `forEach` has seen `rows`. */
  function YearCounts(rows: seq<LivestockData>, year: string): OrderedMap<Count>
  {
    if rows == [] then EmptyMap()
    else
      var x := rows[|rows| - 1];
      var m := YearCounts(rows[..|rows| - 1], year);
      if x.year == year && x.count != Null then Put(m, x.animal, x.count) else m
  }

  /** The records of `years`, in that order, built from `rows`. */
  function Records(years: seq<string>, rows: seq<LivestockData>): (r: seq<ChartData>)
    ensures |r| == |years|
    ensures forall k :: 0 <= k < |r| ==> r[k] == ChartData(years[k], YearCounts(rows, years[k]))
  {
    if years == [] then []
    else Records(years[..|years| - 1], rows) + [ChartData(years[|years| - 1], YearCounts(rows, years[|years| - 1]))]
  }

  /** What `getMultiYearData(location)` returns for the loaded `rows`: one
      record per year in the order the years first occur, then sorted by
      year. */
  function MultiYearData(rows: seq<LivestockData>, location: string): (r: seq<ChartData>)
    ensures |r| == |Dedup(Years(AtLocation(rows, location)))|
  {
    var filtered := AtLocation(rows, location);
    SortBy(Records(Dedup(Years(filtered)), filtered), YearOf)
  }

  // ---------------------------------------------------------------------
  // The operation

  /** `getMultiYearData`: groups the loaded rows of `location` by year in a
      map of maps (a null count opens the year but writes no entry, a later
      count of the same animal overwrites an earlier one), copies each year
      into a record and sorts the records by year. */
  method GetMultiYearData(store: Store, location: string) returns (r: seq<ChartData>)
    ensures r == MultiYearData(store.GetRawData(), location)
  {
    var filtered := AtLocation(store.GetRawData(), location);
    var dataByYear: OrderedMap<OrderedMap<Count>> := EmptyMap();
    var i := 0;
    while i < |filtered|
      invariant 0 <= i <= |filtered|
      invariant Grouped(dataByYear, filtered[..i])
    {
      var item := filtered[i];
      var before := dataByYear;
      if item.year !in dataByYear.entries {
        dataByYear := Put(dataByYear, item.year, EmptyMap());
      }
      var withYear := dataByYear;
      var yearData := dataByYear.entries[item.year];
      if item.count != Null {
        dataByYear := Put(dataByYear, item.year, Put(yearData, item.animal, item.count));
      }
      GroupStep(filtered[..i], item, before, withYear, dataByYear);
      TakeSnoc(filtered, i);
      i := i + 1;
    }
    assert filtered[..i] == filtered;
    var chartData: seq<ChartData> := [];
    var j := 0;
    while j < |dataByYear.keys|
      invariant 0 <= j <= |dataByYear.keys|
      invariant chartData == Records(dataByYear.keys[..j], filtered)
    {
      var year := dataByYear.keys[j];
      TakeSnoc(dataByYear.keys, j);
      chartData := chartData + [ChartData(year, dataByYear.entries[year])];
      j := j + 1;
    }
    assert dataByYear.keys[..j] == dataByYear.keys;
    r := SortBy(chartData, YearOf);
  }

  /** The map of maps after the `forEach` has seen `rows`: the years in
      first-seen order, each with its inner map. */
  ghost predicate Grouped(byYear: OrderedMap<OrderedMap<Count>>, rows: seq<LivestockData>)
  {
    && byYear.keys == Dedup(Years(rows))
    && (forall y :: y in byYear.entries <==> y in byYear.keys)
    && (forall y :: y in byYear.entries ==> byYear.entries[y] == YearCounts(rows, y))
  }

  /** One step of the `forEach` over row `x`: its year gets an empty inner
      map if it has none yet, then its animal is set unless the count is
      null. */
  lemma GroupStep(p: seq<LivestockData>, x: LivestockData, before: OrderedMap<OrderedMap<Count>>,
                  withYear: OrderedMap<OrderedMap<Count>>, after: OrderedMap<OrderedMap<Count>>)
    requires Grouped(before, p)
    requires withYear == if x.year in before.entries then before else Put(before, x.year, EmptyMap())
    requires x.year in withYear.entries
    requires after == if x.count == Null then withYear
                      else Put(withYear, x.year, Put(withYear.entries[x.year], x.animal, x.count))
    ensures Grouped(after, p + [x])
  {
    assert (p + [x])[..|p|] == p;
    DedupSnoc(Years(p), x.year);
    forall y | y in after.entries
      ensures after.entries[y] == YearCounts(p + [x], y)
    {
      if y != x.year {
        assert after.entries[y] == before.entries[y];
      } else if x.year !in before.entries {
        DedupMembers(Years(p));
        YearCountsUnseen(p, y);
      }
    }
  }

  /** A year no row is of has an empty inner map. */
  lemma {:induction false} YearCountsUnseen(rows: seq<LivestockData>, year: string)
    requires year !in Years(rows)
    ensures YearCounts(rows, year) == EmptyMap()
  {
    if rows != [] {
      var p := rows[..|rows| - 1];
      assert Years(rows) == Years(p) + [rows[|rows| - 1].year];
      YearCountsUnseen(p, year);
    }
  }

  // ---------------------------------------------------------------------
  // Properties

  /** The inner map of a year lists each animal with a count once, in the
      order the animals first got a count, and holds for each the count of
      its last row. */
  lemma {:induction false} YearCountsCorrect(rows: seq<LivestockData>, year: string)
    ensures OrderedMapValid(YearCounts(rows, year))
    ensures YearCounts(rows, year).keys == Dedup(Animals(Counted(rows, year)))
    ensures YearCounts(rows, year).entries == LastWins(Counted(rows, year))
  {
    if rows != [] {
      var p, x := rows[..|rows| - 1], rows[|rows| - 1];
      YearCountsCorrect(p, year);
      var c := Counted(p, year);
      var m := YearCounts(p, year);
      if x.year == year && x.count != Null {
        assert Counted(rows, year) == c + [x];
        assert YearCounts(rows, year) == Put(m, x.animal, x.count);
        PutValid(m, x.animal, x.count);
        SnocStep(c, x);
        DedupSnoc(Animals(c), x.animal);
        assert (x.animal in m.entries) == (x.animal in Dedup(Animals(c)));
        assert Put(m, x.animal, x.count).keys == Dedup(Animals(c + [x]));
        assert Put(m, x.animal, x.count).entries == LastWins(c + [x]);
      } else {
        assert Counted(rows, year) == c;
        assert YearCounts(rows, year) == m;
      }
    }
  }

  /** Setting a key keeps the map well formed. */
  lemma PutValid<V>(m: OrderedMap<V>, k: string, v: V)
    requires OrderedMapValid(m)
    ensures OrderedMapValid(Put(m, k, v))
  {
    if k !in m.entries {
      var keys := m.keys + [k];
      forall i, j | 0 <= i < j < |keys|
        ensures keys[i] != keys[j]
      {
        if j == |m.keys| {
          assert keys[i] in m.keys;
        }
      }
    }
  }

  /** One more row at the end of a list of rows. */
  lemma SnocStep(c: seq<LivestockData>, x: LivestockData)
    ensures Animals(c + [x]) == Animals(c) + [x.animal]
    ensures LastWins(c + [x]) == LastWins(c)[x.animal := x.count]
  {
    assert (c + [x])[..|c|] == c;
  }

  /** The dictionary of last counts has an entry for exactly the animals of
      the rows. */
  lemma LastWinsKeys(rows: seq<LivestockData>)
    ensures forall a :: a in LastWins(rows) <==> a in Animals(rows)
  {
    LastWinsCorrect(rows);
    forall a
      ensures a in LastWins(rows) <==> a in Animals(rows)
    {
      if a in Animals(rows) {
        var i :| 0 <= i < |rows| && Animals(rows)[i] == a;
        assert rows[i].animal == a;
      }
    }
  }

  /** A year occurs among the years of some rows exactly when a row is of it. */
  lemma YearsMembers(rows: seq<LivestockData>, year: string)
    ensures year in Years(rows) <==> exists x :: x in rows && x.year == year
  {
    if x :| x in rows && x.year == year {
      var n :| 0 <= n < |rows| && rows[n] == x;
      assert Years(rows)[n] == year;
    }
  }

  lemma RecordsYears(years: seq<string>, rows: seq<LivestockData>)
    ensures ChartYears(Records(years, rows)) == years
  {
  }

  /** Sorting the records keeps their years. */
  lemma SortedYears(recs: seq<ChartData>)
    ensures forall y :: y in ChartYears(SortBy(recs, YearOf)) <==> y in ChartYears(recs)
  {
    SortByCorrect(recs, YearOf);
    var r := SortBy(recs, YearOf);
    forall y
      ensures y in ChartYears(r) <==> y in ChartYears(recs)
    {
      if y in ChartYears(r) {
        var i :| 0 <= i < |r| && ChartYears(r)[i] == y;
        assert r[i] in multiset(recs);
        var k :| 0 <= k < |recs| && recs[k] == r[i];
        assert ChartYears(recs)[k] == y;
      }
      if y in ChartYears(recs) {
        var k :| 0 <= k < |recs| && ChartYears(recs)[k] == y;
        assert recs[k] in multiset(r);
        var i :| 0 <= i < |r| && r[i] == recs[k];
        assert ChartYears(r)[i] == y;
      }
    }
  }

  /** The records are ordered by year, strictly, so no year has two
      records; and a year has a record exactly when some row of the
      location is of that year. */
  lemma MultiYearDataYears(rows: seq<LivestockData>, location: string)
    ensures StrictlySortedBy(MultiYearData(rows, location), YearOf)
    ensures forall y :: y in ChartYears(MultiYearData(rows, location)) <==>
                          exists x :: x in rows && x.geographyName == location && x.year == y
  {
    var filtered := AtLocation(rows, location);
    var years := Dedup(Years(filtered));
    var recs := Records(years, filtered);
    DedupMembers(Years(filtered));
    SortByStrict(recs, YearOf);
    RecordsYears(years, filtered);
    SortedYears(recs);
    forall y
      ensures y in ChartYears(MultiYearData(rows, location)) <==>
                exists x :: x in rows && x.geographyName == location && x.year == y
    {
      YearsMembers(filtered, y);
    }
  }

  /** Every record is the inner map of its year. */
  lemma RecordOf(rows: seq<LivestockData>, location: string, e: ChartData)
    requires e in MultiYearData(rows, location)
    ensures e.counts == YearCounts(AtLocation(rows, location), e.year)
  {
    var filtered := AtLocation(rows, location);
    var recs := Records(Dedup(Years(filtered)), filtered);
    SortByCorrect(recs, YearOf);
    assert e in multiset(recs);
    var k :| 0 <= k < |recs| && recs[k] == e;
  }

  /** Each record holds a count for exactly the animals that have a
      non-null row of the location and the record's year, lists them once in
      the order they first got one, and holds the count of the last such
      row. */
  lemma MultiYearDataCounts(rows: seq<LivestockData>, location: string, e: ChartData)
    requires e in MultiYearData(rows, location)
    ensures OrderedMapValid(e.counts)
    ensures e.counts.keys == Dedup(Animals(Counted(AtLocation(rows, location), e.year)))
    ensures forall a :: a in e.counts.entries <==>
              exists x :: x in rows && x.geographyName == location && x.year == e.year && x.animal == a && x.count != Null
    ensures forall a :: a in e.counts.entries ==>
              e.counts.entries[a] == LastRowOf(Counted(AtLocation(rows, location), e.year), a).value.count
  {
    RecordOf(rows, location, e);
    YearCountsCorrect(AtLocation(rows, location), e.year);
    LastWinsCorrect(Counted(AtLocation(rows, location), e.year));
    forall a
      ensures a in e.counts.entries <==>
                exists x :: x in rows && x.geographyName == location && x.year == e.year && x.animal == a && x.count != Null
    {
      CountedAnimal(rows, location, e.year, a);
    }
  }

  /** An animal gets a count in the record of `year` exactly when a non-null
      row of the location and that year names it. */
  lemma CountedAnimal(rows: seq<LivestockData>, location: string, year: string, a: string)
    ensures a in LastWins(Counted(AtLocation(rows, location), year)) <==>
              exists x :: x in rows && x.geographyName == location && x.year == year && x.animal == a && x.count != Null
  {
    var rs := Counted(AtLocation(rows, location), year);
    if x :| x in rows && x.geographyName == location && x.year == year && x.animal == a && x.count != Null {
      assert x in rs;
      var i :| 0 <= i < |rs| && rs[i] == x;
      assert Animals(rs)[i] == a;
    }
    if a in LastWins(rs) {
      var i :| 0 <= i < |rs| && Animals(rs)[i] == a;
      assert rs[i] in rs;
    }
  }

  /** There are no records exactly when the location has no row. */
  lemma MultiYearDataEmpty(rows: seq<LivestockData>, location: string)
    ensures MultiYearData(rows, location) == [] <==> forall x :: x in rows ==> x.geographyName != location
  {
    MultiYearDataYears(rows, location);
    var r := MultiYearData(rows, location);
    if r != [] {
      assert ChartYears(r)[0] in ChartYears(r);
    } else {
      forall x | x in rows
        ensures x.geographyName != location
      {
        assert x.year !in ChartYears(r);
      }
    }
  }

  /** A year of the location whose every count is null still has a record,
      and that record holds nothing but its year. */
  lemma NullYearKept(rows: seq<LivestockData>, location: string, year: string)
    requires exists x :: x in rows && x.geographyName == location && x.year == year
    requires forall x :: x in rows && x.geographyName == location && x.year == year ==> x.count == Null
    ensures exists i :: 0 <= i < |MultiYearData(rows, location)| &&
              MultiYearData(rows, location)[i].year == year && MultiYearData(rows, location)[i].counts.keys == []
  {
    MultiYearDataYears(rows, location);
    var r := MultiYearData(rows, location);
    assert year in ChartYears(r);
    var i :| 0 <= i < |r| && ChartYears(r)[i] == year;
    assert r[i] in r;
    NullRecord(rows, location, r[i]);
  }

  /** A record whose year has only null counts at the location has no
      animal keys. */
  lemma NullRecord(rows: seq<LivestockData>, location: string, e: ChartData)
    requires e in MultiYearData(rows, location)
    requires forall x :: x in rows && x.geographyName == location && x.year == e.year ==> x.count == Null
    ensures e.counts.keys == []
  {
    MultiYearDataCounts(rows, location, e);
    HeadMember(e.counts.keys);
  }

  // ---------------------------------------------------------------------
  // The animal keys of the records

  /** `Object.keys` of a record: `year` first, then the animals. */
  function ObjectKeys(e: ChartData): (r: seq<string>)
    ensures |r| == |e.counts.keys| + 1 && r[0] == "year"
    ensures forall k :: k in r <==> k == "year" || k in e.counts.keys
  {
    ["year"] + e.counts.keys
  }

  /** The keys other than `year`, in order. */
  function NonYear(keys: seq<string>): (r: seq<string>)
    ensures forall k :: k in r <==> k in keys && k != "year"
  {
    if keys == [] then []
    else
      var k := keys[|keys| - 1];
      assert keys == keys[..|keys| - 1] + [k];
      NonYear(keys[..|keys| - 1]) + (if k != "year" then [k] else [])
  }

  /** `data.flatMap(d => Object.keys(d).filter(k => k !== 'year'))`. */
  function AllAnimalKeys(data: seq<ChartData>): (r: seq<string>)
    ensures forall a :: a in r <==> exists i :: 0 <= i < |data| && a in ObjectKeys(data[i]) && a != "year"
  {
    if data == [] then []
    else
      var p := data[..|data| - 1];
      var r := AllAnimalKeys(p) + NonYear(ObjectKeys(data[|data| - 1]));
      assert forall i :: 0 <= i < |p| ==> p[i] == data[i];
      r
  }

  /** The animal list of a chart: the keys other than `year` of all
      records, each once, in first-seen order. */
  function AnimalUnion(data: seq<ChartData>): (r: seq<string>)
    ensures NoDup(r)
    ensures forall a :: a in r <==> a in AllAnimalKeys(data)
  {
    DedupMembers(AllAnimalKeys(data));
    Dedup(AllAnimalKeys(data))
  }

  /** The animal list names every animal of every record, and each once. */
  lemma AnimalUnionCorrect(data: seq<ChartData>)
    ensures NoDup(AnimalUnion(data))
    ensures forall a :: a in AnimalUnion(data) <==> exists i :: 0 <= i < |data| && a in data[i].counts.keys && a != "year"
  {
    DedupMembers(AllAnimalKeys(data));
    forall a
      ensures a in AnimalUnion(data) <==> exists i :: 0 <= i < |data| && a in data[i].counts.keys && a != "year"
    {
      if i :| 0 <= i < |data| && a in ObjectKeys(data[i]) && a != "year" {
        assert a in data[i].counts.keys;
      }
      if i :| 0 <= i < |data| && a in data[i].counts.keys && a != "year" {
        assert a in ObjectKeys(data[i]);
      }
    }
  }

  // ---------------------------------------------------------------------
  // Axis ticks

  /** `data.map(d => d.year)`. */
  function ChartYears(data: seq<ChartData>): (r: seq<string>)
    ensures |r| == |data| && forall i :: 0 <= i < |data| ==> r[i] == data[i].year
  {
    if data == [] then [] else ChartYears(data[..|data| - 1]) + [data[|data| - 1].year]
  }

  /** `years.filter((_, i) => i % 2 === 0)`: the elements at even indices. */
  function EvenIndexed(s: seq<string>): (r: seq<string>)
    ensures |r| == (|s| + 1) / 2
    ensures forall i :: 0 <= i < |s| && i % 2 == 0 ==> r[i / 2] == s[i]
  {
    if |s| <= 1 then s
    else
      var r := [s[0]] + EvenIndexed(s[2..]);
      assert forall i :: 2 <= i < |s| && i % 2 == 0 ==> r[i / 2] == s[2..][i - 2];
      r
  }

  /** The years of the chart that get a tick: the years at even positions. */
  function TickYears(data: seq<ChartData>): (r: seq<string>)
    ensures |r| == (|data| + 1) / 2
  {
    EvenIndexed(ChartYears(data))
  }

  /** Every tick year is the year of an even-positioned record, and every
      even-positioned record's year is a tick. */
  lemma TickYearsCorrect(data: seq<ChartData>)
    ensures forall k :: 0 <= k < |TickYears(data)| ==> 2 * k < |data| && TickYears(data)[k] == data[2 * k].year
    ensures forall i :: 0 <= i < |data| && i % 2 == 0 ==> data[i].year in TickYears(data)
  {
    var r := TickYears(data);
    forall k | 0 <= k < |r|
      ensures 2 * k < |data| && r[k] == data[2 * k].year
    {
      assert (2 * k) % 2 == 0 && (2 * k) / 2 == k;
    }
    forall i | 0 <= i < |data| && i % 2 == 0
      ensures data[i].year in r
    {
      assert r[i / 2] == data[i].year;
    }
  }
}
