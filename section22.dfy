/** The scatter chart of section 2.2: the effect that prepares its data,
    the top of its count axis, and the radius of its points. */
module Section22 {
  import opened Common
  import opened Database
  import opened MultiYear

  /** The effect: nothing is drawn when no location is chosen or the
      location has no rows; otherwise the animal list (also stored as the
      component's `animalTypes`) is the `flatMap` of the records' keys other
      than `year`, without repeats. */
  method Effect(store: Store, year: string, location: string) returns (r: Option<Render>)
    ensures r.None? <==> location == "" || forall x :: x in store.GetRawData() ==> x.geographyName != location
    ensures r.Some? ==> r.value.data == MultiYearData(store.GetRawData(), location)
    ensures r.Some? ==> r.value.animals == AnimalUnion(r.value.data) && r.value.selectedYear == year
  {
    if location == "" {
      return None;
    }
    var data := GetMultiYearData(store, location);
    MultiYearDataEmpty(store.GetRawData(), location);
    if |data| == 0 {
      return None;
    }
    return Some(Render(data, AnimalUnion(data), year));
  }

  // ---------------------------------------------------------------------
  // maxCount

  /** `Number(d[animal]) || 0`: the animal's count in the record, and 0
      when the record has no count for it or the count is NaN. */
  function Value(d: ChartData, animal: string): (r: int)
    ensures r != 0 ==> animal in d.counts.entries && d.counts.entries[animal] == Int(r)
  {
    if animal in d.counts.entries && d.counts.entries[animal].Int? then d.counts.entries[animal].value else 0
  }

  /** The inner `d3.max` over the animals of one record. */
  function RecordMax(d: ChartData, animals: seq<string>): (m: int)
    requires animals != []
    ensures forall a :: a in animals ==> Value(d, a) <= m
    ensures exists a :: a in animals && Value(d, a) == m
  {
    var last := animals[|animals| - 1];
    if |animals| == 1 then Value(d, last)
    else
      var p := animals[..|animals| - 1];
      var m := RecordMax(d, p);
      assert animals == p + [last];
      if Value(d, last) > m then Value(d, last) else m
  }

  /** The outer `d3.max` over the records. */
  function DataMax(data: seq<ChartData>, animals: seq<string>): (m: int)
    requires data != [] && animals != []
    ensures forall i, a :: 0 <= i < |data| && a in animals ==> Value(data[i], a) <= m
    ensures exists i, a :: 0 <= i < |data| && a in animals && Value(data[i], a) == m
  {
    var last := RecordMax(data[|data| - 1], animals);
    if |data| == 1 then last
    else
      var m := DataMax(data[..|data| - 1], animals);
      assert forall i :: 0 <= i < |data| - 1 ==> data[..|data| - 1][i] == data[i];
      if last > m then last else m
  }

  /** `maxCount`: the largest count of any animal in any record, missing
      and NaN counts read as 0; 0 when there are no records or no animals
      (`d3.max` of nothing is undefined, and `undefined || 0` is 0). */
  function MaxCount(data: seq<ChartData>, animals: seq<string>): (m: int)
    ensures data == [] || animals == [] ==> m == 0
    ensures forall i, a :: 0 <= i < |data| && a in animals ==> Value(data[i], a) <= m
    ensures data != [] && animals != [] ==>
              exists i, a :: 0 <= i < |data| && a in animals && Value(data[i], a) == m
  {
    if data == [] || animals == [] then 0 else DataMax(data, animals)
  }

  /** With any record and any animal the axis top is never below 0. */
  lemma MaxCountNonNegative(data: seq<ChartData>, animals: seq<string>)
    requires forall i, a :: 0 <= i < |data| && a in animals ==> Value(data[i], a) >= 0
    ensures MaxCount(data, animals) >= 0
  {
    if data != [] && animals != [] {
      assert animals[0] in animals;
      assert Value(data[0], animals[0]) >= 0;
    }
  }

  // ---------------------------------------------------------------------
  // Point radius

  /** The radius a point is drawn with: larger for the selected year. */
  function Radius(year: string, selectedYear: string): (r: nat)
    ensures r == 8 || r == 4
    ensures r == 8 <==> year == selectedYear
  {
    if year == selectedYear then 8 else 4
  }

  /** The radius while the pointer is over the point. */
  function HoverRadius(year: string, selectedYear: string): (r: nat)
    ensures 2 * r == 3 * Radius(year, selectedYear)
  {
    if year == selectedYear then 12 else 6
  }

  datatype PointerEvent = MouseOver | MouseOut

  /** The radius of a point after the pointer events it has seen. */
  function RadiusAfter(events: seq<PointerEvent>, year: string, selectedYear: string): (r: nat)
    ensures year == selectedYear ==> r == 8 || r == 12
    ensures year != selectedYear ==> r == 4 || r == 6
  {
    if events == [] then Radius(year, selectedYear)
    else match events[|events| - 1]
      case MouseOver => HoverRadius(year, selectedYear)
      case MouseOut => Radius(year, selectedYear)
  }

  /** A point of the selected year is always drawn larger than a point of
      any other year, whatever the pointer has done to either. */
  lemma SelectedLarger(e1: seq<PointerEvent>, e2: seq<PointerEvent>, selectedYear: string, other: string)
    requires other != selectedYear
    ensures RadiusAfter(e1, selectedYear, selectedYear) > RadiusAfter(e2, other, selectedYear)
  {
  }

  /** Hovering enlarges a point by half, and moving the pointer out puts
      back the radius it was drawn with. */
  lemma HoverAndRestore(events: seq<PointerEvent>, year: string, selectedYear: string)
    ensures 2 * RadiusAfter(events + [MouseOver], year, selectedYear) == 3 * Radius(year, selectedYear)
    ensures RadiusAfter(events + [MouseOut], year, selectedYear) == RadiusAfter([], year, selectedYear)
  {
  }
}
