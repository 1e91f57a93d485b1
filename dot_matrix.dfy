/** The layout engine of the dot-matrix ("unit dot") chart: one marker per
    unit of `count`, packed row by row inside a band per group.

    The chart's effect runs in phases, each a method here: the NaN checks on
    the options, the first-seen lists of categories and groups, the total per
    group, the shared number of rows per group band, the canvas size, and the
    marker pass, whose per-group counters are made afresh for every run.
    `Placed` is the closed form that the marker pass is proved against: the
    k-th marker of a group sits in column `k % capacity` and at height
    `band + (0.5 + k / capacity) / maxLines`. */
module DotMatrix {
  import opened Common

  /** A JavaScript number as the options object may hold it. */
  datatype Number = NaN | Num(value: real)

  datatype DataItem = DataItem(category: string, group: string, count: nat)

  datatype Options = Options(
    dotRadius: Number,
    noOfCirclesInARow: Number,
    dotPaddingLeft: Number,
    dotPaddingRight: Number,
    dotPaddingTop: Number,
    dotPaddingBottom: Number)

  /** The options once every one of them is known to be a number. */
  datatype Geometry = Geometry(
    dotRadius: real,
    noOfCirclesInARow: real,
    dotPaddingLeft: real,
    dotPaddingRight: real,
    dotPaddingTop: real,
    dotPaddingBottom: real)

  /** One circle of the chart, in grid coordinates: `x` is the column, `y` the
      group's band index plus the row offset inside the band. */
  datatype Marker = Marker(x: int, y: real, group: string, category: string)

  /** What one run of the effect computes. */
  datatype Chart = Chart(
    uniqueCategories: seq<string>,
    uniqueGroups: seq<string>,
    sumOfEveryGroup: map<string, nat>,
    maxNoOfLinesInGroup: nat,
    width: real,
    height: real,
    markers: seq<Marker>)

  // ---------------------------------------------------------------------
  // Option checks

  function OptionValues(o: Options): seq<Number>
  {
    [o.dotRadius, o.noOfCirclesInARow, o.dotPaddingLeft, o.dotPaddingRight,
     o.dotPaddingTop, o.dotPaddingBottom]
  }

  const OptionErrors: seq<string> := [
    "dot_radius must be a Number",
    "no_of_circles_in_a_row must be a Number",
    "dot_padding_left must be a Number",
    "dot_padding_right must be a Number",
    "dot_padding_top must be a Number",
    "dot_padding_bottom must be a Number"]

  /** The six `isNaN` checks, in the order the effect makes them: the first
      option that is NaN decides the error; with none, the numbers go on. */
  function CheckOptions(o: Options): (r: Result<Geometry, string>)
    ensures r.Success? <==> forall i :: 0 <= i < 6 ==> OptionValues(o)[i].Num?
    ensures r.Failure? ==>
      exists i :: 0 <= i < 6 && OptionValues(o)[i].NaN? && r.error == OptionErrors[i] &&
        forall j :: 0 <= j < i ==> OptionValues(o)[j].Num?
    ensures r.Success? ==>
      && o.dotRadius.Num? && o.noOfCirclesInARow.Num? && o.dotPaddingLeft.Num?
      && o.dotPaddingRight.Num? && o.dotPaddingTop.Num? && o.dotPaddingBottom.Num?
      && r.value == Geometry(o.dotRadius.value, o.noOfCirclesInARow.value, o.dotPaddingLeft.value,
                             o.dotPaddingRight.value, o.dotPaddingTop.value, o.dotPaddingBottom.value)
  {
    var vs := OptionValues(o);
    assert vs[0] == o.dotRadius && vs[1] == o.noOfCirclesInARow && vs[2] == o.dotPaddingLeft;
    assert vs[3] == o.dotPaddingRight && vs[4] == o.dotPaddingTop && vs[5] == o.dotPaddingBottom;
    if o.dotRadius.NaN? then Failure(OptionErrors[0])
    else if o.noOfCirclesInARow.NaN? then Failure(OptionErrors[1])
    else if o.dotPaddingLeft.NaN? then Failure(OptionErrors[2])
    else if o.dotPaddingRight.NaN? then Failure(OptionErrors[3])
    else if o.dotPaddingTop.NaN? then Failure(OptionErrors[4])
    else if o.dotPaddingBottom.NaN? then Failure(OptionErrors[5])
    else
      Success(Geometry(o.dotRadius.value, o.noOfCirclesInARow.value, o.dotPaddingLeft.value,
                       o.dotPaddingRight.value, o.dotPaddingTop.value, o.dotPaddingBottom.value))
  }

  /** The row capacity is NaN (caught by the checks) or a whole number of at
      least one: the only capacities the marker pass is modelled for. */
  predicate WholeCapacity(n: Number)
  {
    n.Num? ==> n.value >= 1.0 && n.value.Floor as real == n.value
  }

  // ---------------------------------------------------------------------
  // Specification of the aggregation

  function Categories(ds: seq<DataItem>): (r: seq<string>)
    ensures |r| == |ds| && forall i :: 0 <= i < |ds| ==> r[i] == ds[i].category
  {
    if ds == [] then [] else Categories(ds[..|ds| - 1]) + [ds[|ds| - 1].category]
  }

  function Groups(ds: seq<DataItem>): (r: seq<string>)
    ensures |r| == |ds| && forall i :: 0 <= i < |ds| ==> r[i] == ds[i].group
  {
    if ds == [] then [] else Groups(ds[..|ds| - 1]) + [ds[|ds| - 1].group]
  }

  /** The sum of `count` over the items of group `g`. */
  function GroupTotal(ds: seq<DataItem>, g: string): nat
  {
    if ds == [] then 0
    else
      var d := ds[|ds| - 1];
      GroupTotal(ds[..|ds| - 1], g) + (if d.group == g then d.count else 0)
  }

  /** The sum of `count` over all items. */
  function TotalCount(ds: seq<DataItem>): nat
  {
    if ds == [] then 0 else TotalCount(ds[..|ds| - 1]) + ds[|ds| - 1].count
  }

  /** Math.ceil */
  function Ceil(x: real): (c: int)
    ensures c as real >= x && (c - 1) as real < x
  {
    if x.Floor as real == x then x.Floor else x.Floor + 1
  }

  /** `m` is the ceiling of the largest `total / capacity` over the groups, and
      0 when there are no groups. */
  ghost predicate IsMaxLines(m: nat, groups: seq<string>, sums: map<string, nat>, cap: nat)
    requires cap > 0
    requires forall g :: g in groups ==> g in sums
  {
    && (forall g :: g in groups ==> sums[g] as real / cap as real <= m as real)
    && (m == 0 || exists g :: g in groups && (m - 1) as real < sums[g] as real / cap as real)
  }

  // ---------------------------------------------------------------------
  // Specification of the marker pass

  /** d3.scalePoint over the group list with range [0, n - 1]: a group's index. */
  function GroupScale(groups: seq<string>, g: string): (band: nat)
    requires g in groups
    ensures band < |groups| && groups[band] == g
  {
    FirstIndex(groups, g)
  }

  /** The row of the k-th marker (from 0) of a group: `k / cap`, counted
      out row by row (`RowColumnDivMod` proves the two agree). */
  function Row(k: nat, cap: nat): nat
    requires cap > 0
    decreases k
  {
    if k < cap then 0 else Row(k - cap, cap) + 1
  }

  /** The column of the k-th marker of a group: `k % cap`. */
  function Column(k: nat, cap: nat): nat
    requires cap > 0
    decreases k
  {
    if k < cap then k else Column(k - cap, cap)
  }

  /** The height of row `row` inside a band of `lines` rows: the middle of
      the row's share of the band. */
  function RowOffset(row: nat, lines: nat): real
    requires lines > 0
  {
    (0.5 + row as real) / lines as real
  }

  /** The k-th marker (from 0) of a group whose band is `band`. */
  function MarkerAt(category: string, group: string, k: nat, band: nat, cap: nat, lines: nat): Marker
    requires cap > 0 && lines > 0
  {
    Marker(Column(k, cap), band as real + RowOffset(Row(k, cap), lines), group, category)
  }

  /** The first `n` markers of an item of `category` in `group` when `k0`
      markers of the group came before: one per unit of the item's count,
      continuing the group's numbering. */
  function ItemMarkers(category: string, group: string, k0: nat, n: nat, band: nat, cap: nat, lines: nat)
    : (r: seq<Marker>)
    requires cap > 0 && lines > 0
    ensures |r| == n
  {
    if n == 0 then []
    else ItemMarkers(category, group, k0, n - 1, band, cap, lines)
           + [MarkerAt(category, group, k0 + n - 1, band, cap, lines)]
  }

  /** All markers, item after item, each item continuing its own group's count. */
  function Placed(ds: seq<DataItem>, groups: seq<string>, cap: nat, lines: nat): (r: seq<Marker>)
    requires cap > 0 && lines > 0
    requires forall i :: 0 <= i < |ds| ==> ds[i].group in groups
    ensures |r| == TotalCount(ds)
  {
    if ds == [] then []
    else
      var p, d := ds[..|ds| - 1], ds[|ds| - 1];
      Placed(p, groups, cap, lines)
        + ItemMarkers(d.category, d.group, GroupTotal(p, d.group), d.count, GroupScale(groups, d.group), cap, lines)
  }

  /** The markers of group `g`, in order. */
  function OfGroup(ms: seq<Marker>, g: string): seq<Marker>
  {
    if ms == [] then []
    else OfGroup(ms[..|ms| - 1], g) + (if ms[|ms| - 1].group == g then [ms[|ms| - 1]] else [])
  }

  // ---------------------------------------------------------------------
  // The per-group counters of one marker pass

  /** The three per-group entries `generateArray` keeps, in
      `globalLineNoForGroup`, `globalLineSizeForGroup` and
      `globalDotXPosition`: the row offset, the number of markers so far and
      the x counter (one past the last column used). */
  datatype GroupCounter = GroupCounter(lineNo: real, lineSize: nat, dotX: int)

  /** The three dictionaries of one marker pass. They always gain a key
      together, so they are kept as one map from group to its entries. */
  type Counters = map<string, GroupCounter>

  /** The entries a group gets when it is met for the first time. */
  function FreshCounter(lines: nat): GroupCounter
    requires lines > 0
  {
    GroupCounter(0.5 / lines as real, 0, 0)
  }

  /** The row offset a group's counter holds after `k` of its markers. */
  function LineNoAfter(k: nat, cap: nat, lines: nat): real
    requires cap > 0 && lines > 0
  {
    if k == 0 then 0.5 / lines as real else RowOffset(Row(k - 1, cap), lines)
  }

  /** The x counter of a group after `k` of its markers (one past the column). */
  function DotXAfter(k: nat, cap: nat): int
    requires cap > 0
  {
    if k == 0 then 0 else Column(k - 1, cap) + 1
  }

  /** A group's entries after `k` of its markers. */
  function CounterAfter(k: nat, cap: nat, lines: nat): GroupCounter
    requires cap > 0 && lines > 0
  {
    GroupCounter(LineNoAfter(k, cap, lines), k, DotXAfter(k, cap))
  }

  /** Markers of group `g` placed so far; a group with no entry has none. */
  function Emitted(counters: Counters, g: string): nat
  {
    if g in counters then counters[g].lineSize else 0
  }

  /** Every group's row offset and x counter are those its marker count implies. */
  ghost predicate ValidCounters(counters: Counters, cap: nat, lines: nat)
  {
    && cap > 0 && lines > 0
    && forall g :: g in counters ==> counters[g] == CounterAfter(counters[g].lineSize, cap, lines)
  }

  /** `generateArray`: the markers of one data item. Its group's counters go
      on from where the group's earlier items left them; the counters of every
      other group are left as they were. */
  method GenerateArray(counters: Counters, d: DataItem, groups: seq<string>, cap: nat, lines: nat)
    returns (arr: seq<Marker>, counters': Counters)
    requires ValidCounters(counters, cap, lines) && d.group in groups
    ensures ValidCounters(counters', cap, lines)
    ensures arr == ItemMarkers(d.category, d.group, Emitted(counters, d.group), d.count,
                               GroupScale(groups, d.group), cap, lines)
    ensures counters' == counters[d.group := CounterAfter(Emitted(counters, d.group) + d.count, cap, lines)]
  {
    ghost var k0 := Emitted(counters, d.group);
    // the group's entries, created on its first item
    var c := if d.group in counters then counters[d.group] else FreshCounter(lines);
    var band := GroupScale(groups, d.group);
    arr := [];
    var i := 0;
    while i < d.count
      invariant 0 <= i <= d.count
      invariant c == CounterAfter(k0 + i, cap, lines)
      invariant arr == ItemMarkers(d.category, d.group, k0, i, band, cap, lines)
    {
      ghost var before := c;
      if c.lineSize != 0 && c.lineSize % cap == 0 {
        c := c.(lineNo := c.lineNo + 1.0 / lines as real, dotX := 1);
      } else {
        c := c.(dotX := c.dotX + 1);
      }
      var marker := Marker(c.dotX - 1, band as real + c.lineNo, d.group, d.category);
      arr := arr + [marker];
      c := c.(lineSize := c.lineSize + 1);
      SourceStep(k0 + i, before, c, marker, d.group, d.category, band, cap, lines);
      assert arr == ItemMarkers(d.category, d.group, k0, i + 1, band, cap, lines);
      i := i + 1;
    }
    counters' := counters[d.group := c];
    CountersSet(counters, d.group, k0 + d.count, cap, lines);
  }

  /** One turn of `generateArray`'s loop as the source writes it: a new row
      when the group's count is a positive multiple of the capacity, else one
      column to the right; the marker; one more marker counted. It moves the
      entries on by one marker and pushes the closed-form marker. */
  lemma SourceStep(k: nat, c: GroupCounter, c': GroupCounter, marker: Marker,
                   g: string, category: string, band: nat, cap: nat, lines: nat)
    requires cap > 0 && lines > 0
    requires c == CounterAfter(k, cap, lines)
    requires var moved := if c.lineSize != 0 && c.lineSize % cap == 0
                          then c.(lineNo := c.lineNo + 1.0 / lines as real, dotX := 1)
                          else c.(dotX := c.dotX + 1);
             && marker == Marker(moved.dotX - 1, band as real + moved.lineNo, g, category)
             && c' == moved.(lineSize := k + 1)
    ensures c' == CounterAfter(k + 1, cap, lines)
    ensures marker == MarkerAt(category, g, k, band, cap, lines)
  {
    RowColumnDivMod(k, cap);
    CounterStep(k, cap, lines);
  }

  /** Setting one group's entries to those of `k` markers keeps every
      group's entries consistent. */
  lemma CountersSet(counters: Counters, g: string, k: nat, cap: nat, lines: nat)
    requires ValidCounters(counters, cap, lines)
    ensures ValidCounters(counters[g := CounterAfter(k, cap, lines)], cap, lines)
  {
  }

  // ---------------------------------------------------------------------
  // The phases of one run

  /** The first-seen lists of categories and groups (the `flagsCat` and
      `flagsGroup` loop). */
  method CollectUnique(dataset: seq<DataItem>) returns (uniqueCategories: seq<string>, uniqueGroups: seq<string>)
    ensures uniqueCategories == Dedup(Categories(dataset))
    ensures uniqueGroups == Dedup(Groups(dataset))
  {
    uniqueCategories, uniqueGroups := [], [];
    var flagsCat: set<string> := {};
    var flagsGroup: set<string> := {};
    var i := 0;
    while i < |dataset|
      invariant 0 <= i <= |dataset|
      invariant uniqueCategories == Dedup(Categories(dataset[..i]))
      invariant uniqueGroups == Dedup(Groups(dataset[..i]))
      invariant forall c :: c in flagsCat <==> c in uniqueCategories
      invariant forall g :: g in flagsGroup <==> g in uniqueGroups
    {
      var d := dataset[i];
      assert dataset[..i + 1] == dataset[..i] + [d];
      assert Categories(dataset[..i + 1]) == Categories(dataset[..i]) + [d.category];
      assert Groups(dataset[..i + 1]) == Groups(dataset[..i]) + [d.group];
      DedupSnoc(Categories(dataset[..i]), d.category);
      DedupSnoc(Groups(dataset[..i]), d.group);
      if d.category !in flagsCat {
        flagsCat := flagsCat + {d.category};
        uniqueCategories := uniqueCategories + [d.category];
      }
      if d.group !in flagsGroup {
        flagsGroup := flagsGroup + {d.group};
        uniqueGroups := uniqueGroups + [d.group];
      }
      i := i + 1;
    }
    assert dataset[..i] == dataset;
  }

  /** `sums` holds an entry for exactly the groups of `ds`, each group's
      total count. */
  ghost predicate IsSumsOf(sums: map<string, nat>, ds: seq<DataItem>)
  {
    && (forall g :: g in sums ==> g in Groups(ds))
    && (forall g :: g in Groups(ds) ==> g in sums)
    && (forall g :: g in sums ==> sums[g] == GroupTotal(ds, g))
  }

  /** `sumOfEveryGroup`: the total count of every group that occurs. */
  method SumGroups(dataset: seq<DataItem>) returns (sums: map<string, nat>)
    ensures IsSumsOf(sums, dataset)
  {
    sums := map[];
    var i := 0;
    while i < |dataset|
      invariant 0 <= i <= |dataset|
      invariant IsSumsOf(sums, dataset[..i])
    {
      var d := dataset[i];
      ghost var before := sums;
      if d.group !in sums {
        sums := sums[d.group := 0];
      }
      sums := sums[d.group := sums[d.group] + d.count];
      assert dataset[..i + 1] == dataset[..i] + [d];
      SumsStep(before, dataset[..i], d);
      i := i + 1;
    }
    assert dataset[..i] == dataset;
  }

  /** Adding one item's count to its group's entry (created at 0) keeps the
      sums those of the longer prefix. */
  lemma SumsStep(sums: map<string, nat>, ds: seq<DataItem>, d: DataItem)
    requires IsSumsOf(sums, ds)
    ensures IsSumsOf(sums[d.group := (if d.group in sums then sums[d.group] else 0) + d.count], ds + [d])
  {
    var p := ds + [d];
    assert p[..|p| - 1] == ds;
    assert Groups(p) == Groups(ds) + [d.group];
    if d.group !in sums {
      GroupTotalAbsent(ds, d.group);
    }
  }

  /** `maxNoOfLinesInGroup`: the loop keeps the largest ceiling seen so far,
      and replaces it only when a group needs more than it. */
  method MaxLines(groups: seq<string>, sums: map<string, nat>, cap: nat) returns (m: nat)
    requires cap > 0
    requires forall g :: g in groups ==> g in sums
    ensures IsMaxLines(m, groups, sums, cap)
  {
    m := 0;
    var i := 0;
    while i < |groups|
      invariant 0 <= i <= |groups|
      invariant forall j :: 0 <= j < i ==> sums[groups[j]] as real / cap as real <= m as real
      invariant m == 0 || exists j :: 0 <= j < i && (m - 1) as real < sums[groups[j]] as real / cap as real
    {
      var lines := sums[groups[i]] as real / cap as real;
      if lines > m as real {
        m := Ceil(lines);
      }
      i := i + 1;
    }
  }

  /** The marker pass: `generateArray` applied to every item in order, with
      counters made fresh for this pass and shared by all of its items. */
  method PlaceMarkers(dataset: seq<DataItem>, groups: seq<string>, cap: nat, lines: nat)
    returns (markers: seq<Marker>)
    requires cap > 0 && lines > 0
    requires forall i :: 0 <= i < |dataset| ==> dataset[i].group in groups
    ensures markers == Placed(dataset, groups, cap, lines)
  {
    var counters: Counters := map[];
    markers := [];
    var i := 0;
    while i < |dataset|
      invariant 0 <= i <= |dataset|
      invariant ValidCounters(counters, cap, lines)
      invariant forall g :: Emitted(counters, g) == GroupTotal(dataset[..i], g)
      invariant markers == Placed(dataset[..i], groups, cap, lines)
    {
      var d := dataset[i];
      assert dataset[..i + 1][..i] == dataset[..i];
      var arr;
      arr, counters := GenerateArray(counters, d, groups, cap, lines);
      markers := markers + arr;
      i := i + 1;
    }
    assert dataset[..i] == dataset;
  }

  /** One run of the chart's effect on `dataset` and `options`. */
  method Layout(dataset: seq<DataItem>, options: Options) returns (r: Result<Chart, string>)
    requires WholeCapacity(options.noOfCirclesInARow)
    ensures CheckOptions(options).Failure? <==> r.Failure?
    ensures r.Failure? ==> r.error == CheckOptions(options).error
    ensures r.Success? ==> IsLayoutOf(r.value, dataset, CheckOptions(options).value)
  {
    var checked := CheckOptions(options);
    if checked.Failure? {
      return Failure(checked.error);
    }
    var geo := checked.value;
    assert geo.noOfCirclesInARow == options.noOfCirclesInARow.value;
    assert geo.noOfCirclesInARow.Floor >= 1;
    var cap: nat := geo.noOfCirclesInARow.Floor;

    var uniqueCategories, uniqueGroups := CollectUnique(dataset);
    DedupMembers(Groups(dataset));
    var sumOfEveryGroup := SumGroups(dataset);
    var maxNoOfLinesInGroup := MaxLines(uniqueGroups, sumOfEveryGroup, cap);

    var numberOfLines := maxNoOfLinesInGroup * |uniqueGroups|;
    var height := CanvasHeight(numberOfLines, geo);
    var width := CanvasWidth(geo);

    var markers: seq<Marker> := [];
    if maxNoOfLinesInGroup > 0 {
      markers := PlaceMarkers(dataset, uniqueGroups, cap, maxNoOfLinesInGroup);
    }
    var c := Chart(uniqueCategories, uniqueGroups, sumOfEveryGroup, maxNoOfLinesInGroup, width, height, markers);
    assert IsLayoutOf(c, dataset, geo);
    return Success(c);
  }

  /** The canvas height: every row of every band is one dot plus its top and
      bottom padding tall. */
  function CanvasHeight(numberOfLines: int, geo: Geometry): (h: real)
    ensures numberOfLines == 0 ==> h == 0.0
    ensures (numberOfLines >= 0 && geo.dotRadius >= 0.0 && geo.dotPaddingBottom >= 0.0
             && geo.dotPaddingTop >= 0.0) ==> h >= 0.0
  {
    numberOfLines as real * (geo.dotRadius * 2.0 + geo.dotPaddingBottom + geo.dotPaddingTop)
  }

  /** The canvas width: a row of `noOfCirclesInARow` dots with their left and
      right padding. */
  function CanvasWidth(geo: Geometry): (w: real)
    ensures geo.noOfCirclesInARow == 0.0 ==> w == 0.0
    ensures (geo.noOfCirclesInARow >= 0.0 && geo.dotRadius >= 0.0 && geo.dotPaddingLeft >= 0.0
             && geo.dotPaddingRight >= 0.0) ==> w >= 0.0
  {
    (geo.dotRadius * 2.0 + geo.dotPaddingLeft + geo.dotPaddingRight) * geo.noOfCirclesInARow
  }

  /** `c` is what a run computes on `dataset` with the checked options `geo`. */
  ghost predicate IsLayoutOf(c: Chart, dataset: seq<DataItem>, geo: Geometry)
  {
    var cap := geo.noOfCirclesInARow.Floor;
    && cap > 0
    && c.uniqueCategories == Dedup(Categories(dataset))
    && c.uniqueGroups == Dedup(Groups(dataset))
    && (forall g :: g in c.sumOfEveryGroup ==> g in c.uniqueGroups)
    && (forall g :: g in c.uniqueGroups ==> g in c.sumOfEveryGroup)
    && (forall g :: g in c.sumOfEveryGroup ==> c.sumOfEveryGroup[g] == GroupTotal(dataset, g))
    && IsMaxLines(c.maxNoOfLinesInGroup, c.uniqueGroups, c.sumOfEveryGroup, cap)
    && c.height == CanvasHeight(c.maxNoOfLinesInGroup * |c.uniqueGroups|, geo)
    && c.width == CanvasWidth(geo)
    && (forall i :: 0 <= i < |dataset| ==> dataset[i].group in c.uniqueGroups)
    && c.markers == if c.maxNoOfLinesInGroup == 0 then []
                    else Placed(dataset, c.uniqueGroups, cap, c.maxNoOfLinesInGroup)
  }

  // ---------------------------------------------------------------------
  // Properties of a run

  /** The markers of group `g`, in order, are its 0th, 1st, 2nd ... marker:
      the k-th sits in column `k % cap` of row `k / cap` of the group's band. */
  ghost predicate NumberedFromZero(ms: seq<Marker>, g: string, band: nat, cap: nat, lines: nat)
    requires cap > 0 && lines > 0
  {
    forall k :: 0 <= k < |ms| ==>
      && ms[k].group == g
      && ms[k].x == Column(k, cap)
      && ms[k].y == band as real + RowOffset(Row(k, cap), lines)
  }

  /** Across all items, each group's markers are numbered on from where the
      group's previous item stopped, so every group's markers form one
      unbroken numbering from 0, however its items are interleaved with
      other groups' items. */
  lemma {:induction false} PlacedByGroup(ds: seq<DataItem>, groups: seq<string>, cap: nat, lines: nat, g: string)
    requires cap > 0 && lines > 0
    requires forall i :: 0 <= i < |ds| ==> ds[i].group in groups
    requires g in groups
    ensures |OfGroup(Placed(ds, groups, cap, lines), g)| == GroupTotal(ds, g)
    ensures NumberedFromZero(OfGroup(Placed(ds, groups, cap, lines), g), g, GroupScale(groups, g), cap, lines)
  {
    if ds != [] {
      var p, d := ds[..|ds| - 1], ds[|ds| - 1];
      var band := GroupScale(groups, g);
      var k0 := GroupTotal(p, d.group);
      var item := ItemMarkers(d.category, d.group, k0, d.count, GroupScale(groups, d.group), cap, lines);
      PlacedByGroup(p, groups, cap, lines, g);
      OfGroupAppend(Placed(p, groups, cap, lines), item, g);
      ItemMarkersOfGroup(d.category, d.group, k0, d.count, GroupScale(groups, d.group), cap, lines, g);
      if d.group == g {
        NumberedAppend(OfGroup(Placed(p, groups, cap, lines), g), d.category, g, d.count, band, cap, lines);
      }
    }
  }

  /** A group's numbered markers followed by the markers of its next item,
      numbered on from them, are still numbered from 0. */
  lemma NumberedAppend(before: seq<Marker>, category: string, g: string, n: nat, band: nat, cap: nat, lines: nat)
    requires cap > 0 && lines > 0
    requires NumberedFromZero(before, g, band, cap, lines)
    ensures NumberedFromZero(before + ItemMarkers(category, g, |before|, n, band, cap, lines), g, band, cap, lines)
  {
    var item := ItemMarkers(category, g, |before|, n, band, cap, lines);
    var ms := before + item;
    forall k | |before| <= k < |ms|
      ensures ms[k] == MarkerAt(category, g, k, band, cap, lines)
    {
      ItemMarkersAt(category, g, |before|, n, band, cap, lines, k - |before|);
    }
  }

  /** A run draws exactly one marker per unit of count, and each group gets
      as many markers as its total. */
  lemma LayoutCounts(c: Chart, dataset: seq<DataItem>, geo: Geometry, g: string)
    requires IsLayoutOf(c, dataset, geo)
    requires g in c.uniqueGroups
    ensures |c.markers| == TotalCount(dataset)
    ensures |OfGroup(c.markers, g)| == c.sumOfEveryGroup[g]
  {
    var cap := geo.noOfCirclesInARow.Floor;
    if c.maxNoOfLinesInGroup == 0 {
      MaxLinesZero(c.maxNoOfLinesInGroup, c.uniqueGroups, c.sumOfEveryGroup, cap);
      DedupMembers(Groups(dataset));
      TotalsZero(dataset);
    } else {
      PlacedByGroup(dataset, c.uniqueGroups, cap, c.maxNoOfLinesInGroup, g);
    }
  }

  /** Every marker of a run stays inside its group's band: its column is
      below the row capacity and its height lies strictly between the band's
      index and the next one; and no two markers of a group share a place. */
  lemma LayoutFits(c: Chart, dataset: seq<DataItem>, geo: Geometry, g: string)
    requires IsLayoutOf(c, dataset, geo)
    requires g in c.uniqueGroups
    ensures var ms, band := OfGroup(c.markers, g), GroupScale(c.uniqueGroups, g);
      forall k :: 0 <= k < |ms| ==>
        && 0 <= ms[k].x < geo.noOfCirclesInARow.Floor
        && band as real < ms[k].y < band as real + 1.0
    ensures var ms := OfGroup(c.markers, g);
      forall i, j :: 0 <= i < j < |ms| ==> ms[i].x != ms[j].x || ms[i].y != ms[j].y
  {
    var cap, lines := geo.noOfCirclesInARow.Floor, c.maxNoOfLinesInGroup;
    var ms, band := OfGroup(c.markers, g), GroupScale(c.uniqueGroups, g);
    if lines > 0 {
      PlacedByGroup(dataset, c.uniqueGroups, cap, lines, g);
      TotalFits(c.sumOfEveryGroup[g], lines, cap);
      forall k | 0 <= k < |ms|
        ensures 0 <= ms[k].x < cap && band as real < ms[k].y < band as real + 1.0
      {
        RowColumnStep(k, cap);
        RowFits(k, cap, lines);
        OffsetInBand(Row(k, cap), lines);
      }
      forall i, j | 0 <= i < j < |ms|
        ensures ms[i].x != ms[j].x || ms[i].y != ms[j].y
      {
        PlacesDistinct(i, j, cap, lines);
      }
    }
  }

  /** The shared band height is zero exactly when every group's total is
      zero; the marker pass is skipped only then. */
  lemma MaxLinesZero(m: nat, groups: seq<string>, sums: map<string, nat>, cap: nat)
    requires cap > 0
    requires forall g :: g in groups ==> g in sums
    requires IsMaxLines(m, groups, sums, cap)
    ensures m == 0 <==> forall g :: g in groups ==> sums[g] == 0
  {
    if m == 0 {
      forall g | g in groups
        ensures sums[g] == 0
      {
        if sums[g] > 0 {
          RealDivPositive(sums[g], cap);
        }
      }
    }
  }

  /** The shared band height fits every group: each total is at most
      `m * cap`, and no smaller height would fit them all. */
  lemma MaxLinesFits(m: nat, groups: seq<string>, sums: map<string, nat>, cap: nat)
    requires cap > 0
    requires forall g :: g in groups ==> g in sums
    requires IsMaxLines(m, groups, sums, cap)
    ensures forall g :: g in groups ==> sums[g] <= m * cap
    ensures m > 0 ==> exists g :: g in groups && sums[g] > (m - 1) * cap
  {
    forall g | g in groups
      ensures sums[g] <= m * cap
    {
      TotalFits(sums[g], m, cap);
    }
    if m > 0 {
      var g :| g in groups && (m - 1) as real < sums[g] as real / cap as real;
      BelowQuotient(sums[g], m - 1, cap);
    }
  }

  // ---------------------------------------------------------------------
  // Arithmetic

  lemma MulAtLeast(x: int, b: int)
    requires x >= 1 && b > 0
    ensures x * b >= b
  {
    if x > 1 {
      MulAtLeast(x - 1, b);
      assert x * b == (x - 1) * b + b;
    }
  }

  lemma DivModUnique(a: int, b: int, q: int, r: int)
    requires b > 0 && 0 <= r < b && a == q * b + r
    ensures a / b == q && a % b == r
  {
    var q', r' := a / b, a % b;
    assert a == q' * b + r';
    if q' > q {
      MulAtLeast(q' - q, b);
    } else if q' < q {
      MulAtLeast(q - q', b);
    }
  }

  /** Counting out one more marker: the column moves right, or wraps to 0
      and the row moves down when the row was full. */
  lemma {:induction false} RowColumnStep(k: nat, cap: nat)
    requires cap > 0
    ensures Column(k, cap) < cap
    ensures Column(k, cap) + 1 < cap ==>
              Column(k + 1, cap) == Column(k, cap) + 1 && Row(k + 1, cap) == Row(k, cap)
    ensures Column(k, cap) + 1 == cap ==> Column(k + 1, cap) == 0 && Row(k + 1, cap) == Row(k, cap) + 1
    decreases k
  {
    if k + 1 < cap {
    } else if k + 1 == cap {
      assert Row(k + 1 - cap, cap) == 0;
    } else {
      RowColumnStep(k - cap, cap);
      assert k + 1 - cap == (k - cap) + 1;
    }
  }

  /** The rows and columns counted out are those of division by the capacity. */
  lemma {:induction false} RowColumnDivMod(k: nat, cap: nat)
    requires cap > 0
    ensures Row(k, cap) == k / cap && Column(k, cap) == k % cap
    decreases k
  {
    if k < cap {
      DivModUnique(k, cap, 0, k);
    } else {
      RowColumnDivMod(k - cap, cap);
      RowColumnStep(k - cap, cap);
      DivModUnique(k - cap, cap, Row(k - cap, cap), Column(k - cap, cap));
      DivModUnique(k, cap, Row(k - cap, cap) + 1, Column(k - cap, cap));
    }
  }

  lemma AddOneRow(a: real, lines: real)
    requires lines > 0.0
    ensures a / lines + 1.0 / lines == (a + 1.0) / lines
  {
  }

  /** One step of `generateArray`'s loop, on the closed forms of the counters. */
  lemma CounterStep(k: nat, cap: nat, lines: nat)
    requires cap > 0 && lines > 0
    ensures k != 0 && Column(k, cap) == 0 ==>
              LineNoAfter(k + 1, cap, lines) == LineNoAfter(k, cap, lines) + 1.0 / lines as real
              && DotXAfter(k + 1, cap) == 1
    ensures !(k != 0 && Column(k, cap) == 0) ==>
              LineNoAfter(k + 1, cap, lines) == LineNoAfter(k, cap, lines)
              && DotXAfter(k + 1, cap) == DotXAfter(k, cap) + 1
  {
    if k != 0 {
      RowColumnStep(k - 1, cap);
      assert k - 1 + 1 == k;
      if Column(k, cap) == 0 {
        AddOneRow(0.5 + Row(k - 1, cap) as real, lines as real);
      }
    }
  }

  lemma GroupTotalAbsent(ds: seq<DataItem>, g: string)
    requires g !in Groups(ds)
    ensures GroupTotal(ds, g) == 0
  {
    if ds != [] {
      assert Groups(ds[..|ds| - 1]) == Groups(ds)[..|ds| - 1];
      GroupTotalAbsent(ds[..|ds| - 1], g);
    }
  }

  /** The markers of an item, one by one. */
  lemma {:induction false} ItemMarkersAt(category: string, group: string, k0: nat, n: nat, band: nat,
                                         cap: nat, lines: nat, j: nat)
    requires cap > 0 && lines > 0 && j < n
    ensures ItemMarkers(category, group, k0, n, band, cap, lines)[j] == MarkerAt(category, group, k0 + j, band, cap, lines)
  {
    if j < n - 1 {
      ItemMarkersAt(category, group, k0, n - 1, band, cap, lines, j);
    }
  }

  lemma {:induction false} OfGroupAppend(a: seq<Marker>, b: seq<Marker>, g: string)
    ensures OfGroup(a + b, g) == OfGroup(a, g) + OfGroup(b, g)
    decreases |b|
  {
    if b == [] {
      assert a + b == a;
    } else {
      var b' := b[..|b| - 1];
      assert (a + b)[..|a + b| - 1] == a + b';
      OfGroupAppend(a, b', g);
    }
  }

  lemma {:induction false} ItemMarkersOfGroup(category: string, group: string, k0: nat, n: nat, band: nat,
                                              cap: nat, lines: nat, g: string)
    requires cap > 0 && lines > 0
    ensures OfGroup(ItemMarkers(category, group, k0, n, band, cap, lines), g)
            == if group == g then ItemMarkers(category, group, k0, n, band, cap, lines) else []
  {
    if n > 0 {
      var ms := ItemMarkers(category, group, k0, n, band, cap, lines);
      assert ms[..|ms| - 1] == ItemMarkers(category, group, k0, n - 1, band, cap, lines);
      ItemMarkersOfGroup(category, group, k0, n - 1, band, cap, lines, g);
    }
  }

  /** Every item's count is part of its group's total. */
  lemma {:induction false} CountInTotal(ds: seq<DataItem>, i: nat)
    requires i < |ds|
    ensures ds[i].count <= GroupTotal(ds, ds[i].group)
  {
    if i < |ds| - 1 {
      CountInTotal(ds[..|ds| - 1], i);
    }
  }

  /** When every item's group has a total of zero, the total count is zero. */
  lemma {:induction false} TotalsZero(ds: seq<DataItem>)
    requires forall i :: 0 <= i < |ds| ==> GroupTotal(ds, ds[i].group) == 0
    ensures TotalCount(ds) == 0
  {
    if ds != [] {
      var p := ds[..|ds| - 1];
      forall i | 0 <= i < |p|
        ensures GroupTotal(p, p[i].group) == 0
      {
        assert GroupTotal(ds, ds[i].group) == 0;
      }
      TotalsZero(p);
      CountInTotal(ds, |ds| - 1);
    }
  }

  lemma RealDivPositive(x: nat, cap: nat)
    requires cap > 0 && x > 0
    ensures x as real / cap as real > 0.0
  {
  }

  /** A total whose quotient by the capacity is at most `m` fits in `m` rows. */
  lemma TotalFits(x: nat, m: nat, cap: nat)
    requires cap > 0 && x as real / cap as real <= m as real
    ensures x <= m * cap
  {
    assert x as real == (x as real / cap as real) * cap as real;
    assert (m * cap) as real == m as real * cap as real;
  }

  lemma BelowQuotient(x: nat, m: nat, cap: nat)
    requires cap > 0 && m as real < x as real / cap as real
    ensures x > m * cap
  {
    assert x as real == (x as real / cap as real) * cap as real;
    assert (m * cap) as real == m as real * cap as real;
  }

  /** The k-th marker of a group lies in one of the first `lines` rows when
      the group has at most `lines * cap` markers. */
  lemma {:induction false} RowFits(k: nat, cap: nat, lines: nat)
    requires cap > 0 && k < lines * cap
    ensures Row(k, cap) < lines
    decreases k
  {
    if k >= cap {
      assert k - cap < (lines - 1) * cap;
      RowFits(k - cap, cap, lines - 1);
    }
  }

  /** A row inside the band sits strictly between the band's edges. */
  lemma OffsetInBand(row: nat, lines: nat)
    requires row < lines
    ensures 0.0 < RowOffset(row, lines) < 1.0
  {
    QuotientBelowOne(0.5 + row as real, lines as real);
  }

  /** Two different markers of a group are in different places. */
  lemma PlacesDistinct(i: nat, j: nat, cap: nat, lines: nat)
    requires cap > 0 && lines > 0 && i != j
    ensures Column(i, cap) != Column(j, cap) || RowOffset(Row(i, cap), lines) != RowOffset(Row(j, cap), lines)
  {
    RowColumnDivMod(i, cap);
    RowColumnDivMod(j, cap);
    if Column(i, cap) == Column(j, cap) && RowOffset(Row(i, cap), lines) == RowOffset(Row(j, cap), lines) {
      QuotientInjective(0.5 + Row(i, cap) as real, 0.5 + Row(j, cap) as real, lines as real);
    }
  }

  lemma QuotientBelowOne(a: real, b: real)
    requires 0.0 < a < b
    ensures 0.0 < a / b < 1.0
  {
    var q := a / b;
    assert q * b == a;
    if q >= 1.0 {
      assert false;
    }
  }

  lemma QuotientInjective(a: real, b: real, l: real)
    requires l > 0.0 && a / l == b / l
    ensures a == b
  {
    assert a == (a / l) * l;
  }
}
