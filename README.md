# Livestock visualisation: a verified model of its data logic

The livestock visualisation is a React and d3 web application. It shows New
Zealand livestock numbers by year, region and animal type. This project models
the logic under its charts, in Dafny:

- **Dot-matrix layout engine** (`DotMatrix.tsx`). It checks that the options
  are numbers. It collects the categories and groups in first-seen order and
  totals each group. It finds the shared number of rows per group band and
  sizes the canvas. Then `generateArray` turns every unit of `count` into a
  grid marker, with running counters kept per group. With exact
  arithmetic, the marker pass is proved against a closed form: the k-th
  marker of a group sits in column `k % capacity` and at height
  `band + (0.5 + k / capacity) / maxLines`.
- **Data store** (`database.ts`). A class `Store` holds the module state
  `rawData` and `currentData`. `filterData` keeps the rows of one year and
  location, and the last row wins for each animal. The `getAvailable*` and
  `getAnimalTypes` queries return sorted lists without duplicates.
- **CSV loader** (`dataloader.ts`). It splits the file on newlines and skips
  the header and blank lines. It splits each row on commas, reads `NA` as a
  missing count and otherwise reads the count like `parseInt(…, 10)`. The
  parsed list is handed to the store.
- **Multi-year pivot** (`getMultiYearData`, the same code in `section2.1.tsx`
  and `section2.2.tsx`). It keeps one location's rows and groups them by year
  in a JavaScript `Map`, whose keys stay in insertion order. Null counts are
  skipped, the last count wins per animal, and the records are sorted by year.
  Around it sit the chart effects' guards, the animal-key union, the even-index
  tick years, section 2.2's `maxCount` and its point-radius rule.
- **Active categories** (`context.tsx`). The initial set of active categories,
  `toggleCategory`, and the error when no provider is present.

Modules: `Common` (options and results, first-seen deduplication,
lexicographic order and a stable insertion sort), `DotMatrix`, `Database`,
`DataLoader`, `MultiYear`, `Section21`, `Section22` and `ActiveCategories`.

Modelling choices:

- Where the source mutates state step by step, the model is imperative:
  methods with loops and invariants, and a class for the store.
- Every method's result or new state is fully determined by its contract.
  The properties the source promises are lemmas about the specification
  functions.
- JavaScript `Map` and `Set` insertion order is modelled explicitly:
  `MultiYear.OrderedMap` and `Common.Dedup`.
- `localeCompare` and the default `.sort()` are modelled as lexicographic
  order on characters.

## Model

| member | source | states |
|---|---|---|
| Common.FirstIndex | livestock_visualisation/src/sections/section2/dot_matrix/DotMatrix.tsx:94-96 | a group's band is the position of its first occurrence in `uniqueGroups`: that position holds the group and no earlier one does |
| Common.DedupMembers | livestock_visualisation/src/sections/section2/dot_matrix/DotMatrix.tsx:59-73 | the first-seen list has no duplicates and holds exactly the values of the input |
| Common.DedupFirstSeen | livestock_visualisation/src/sections/section2/dot_matrix/DotMatrix.tsx:64-73 | the first-seen list holds exactly the input's values, ordered by where each first occurs |
| Common.DedupSnoc | livestock_visualisation/src/sections/section2/dot_matrix/DotMatrix.tsx:65-68 | one more value is appended exactly when it has not been seen yet (the flag test) |
| Common.FirstIndexAppend | livestock_visualisation/src/sections/section2/dot_matrix/DotMatrix.tsx:69-72 | appending a value does not move the position of a value already present |
| Common.FirstIndexLast | livestock_visualisation/src/sections/section2/dot_matrix/DotMatrix.tsx:69-72 | a value not yet present, once appended, sits at the end |
| Common.BelowIrreflexive | livestock_visualisation/src/sections/section2/section2.1.tsx:45 | the string order used for sorting is irreflexive |
| Common.BelowTransitive | livestock_visualisation/src/sections/section2/section2.1.tsx:45 | the string order is transitive |
| Common.BelowTotal | livestock_visualisation/src/sections/section2/section2.1.tsx:45 | any two strings are equal or ordered one way or the other |
| Common.BelowAsymmetric | livestock_visualisation/src/sections/section2/section2.1.tsx:45 | the string order is asymmetric |
| Common.AtMostTransitive | livestock_visualisation/src/sections/section2/section2.1.tsx:45 | the non-strict string order is transitive |
| Common.InsertByPermutes | livestock_visualisation/src/sections/section2/section2.1.tsx:45 | inserting one element into a list adds exactly that element |
| Common.InsertBySorted | livestock_visualisation/src/sections/section2/section2.1.tsx:45 | inserting into a sorted list keeps it sorted |
| Common.ConsSorted | livestock_visualisation/src/sections/section2/section2.1.tsx:45 | a head no larger than every element of a sorted tail gives a sorted list |
| Common.SortByCorrect | livestock_visualisation/src/sections/section2/section2.1.tsx:45 | sorting by a key gives a list sorted by that key that is a permutation of the input |
| Common.SortByStrict | livestock_visualisation/src/sections/section2/section2.1.tsx:45 | when all keys differ, the sorted list is strictly ascending and still a permutation |
| Common.MultisetTwoPositions | livestock_visualisation/src/sections/section2/section2.1.tsx:45 | an element at two positions occurs at least twice |
| Common.MultisetOnce | livestock_visualisation/src/sections/section2/section2.1.tsx:45 | when all keys differ, every element occurs exactly once |
| Common.SortStringsDistinct | livestock_visualisation/src/database/database.ts:72 | sorting a duplicate-free list of strings gives a strictly ascending list of the same strings |
| Common.Dedup | livestock_visualisation/src/sections/section2/dot_matrix/DotMatrix.tsx:59-73 | no contract of its own; its properties are stated by `DedupMembers` and `DedupFirstSeen` |
| Common.SortBy | livestock_visualisation/src/sections/section2/section2.1.tsx:45 | sorting keeps the number of elements; order and permutation are stated by `SortByCorrect` |
| DotMatrix.CheckOptions | livestock_visualisation/src/sections/section2/dot_matrix/DotMatrix.tsx:40-57 | fails exactly when some option is NaN, with the message of the first such option in the source's order; otherwise gives the options' values |
| DotMatrix.Categories | livestock_visualisation/src/sections/section2/dot_matrix/DotMatrix.tsx:65 | the category of each item, in order |
| DotMatrix.Groups | livestock_visualisation/src/sections/section2/dot_matrix/DotMatrix.tsx:69 | the group of each item, in order |
| DotMatrix.CollectUnique | livestock_visualisation/src/sections/section2/dot_matrix/DotMatrix.tsx:59-73 | the flag loop yields the first-seen lists of categories and groups |
| DotMatrix.SumGroups | livestock_visualisation/src/sections/section2/dot_matrix/DotMatrix.tsx:75-82 | each group present maps to the sum of its items' counts, and no other key is present |
| DotMatrix.SumsStep | livestock_visualisation/src/sections/section2/dot_matrix/DotMatrix.tsx:77-81 | one step of the totals loop (create at 0, then add) keeps the totals exact for one more item |
| DotMatrix.GroupTotalAbsent | livestock_visualisation/src/sections/section2/dot_matrix/DotMatrix.tsx:76-82 | a group with no item totals 0 |
| DotMatrix.CountInTotal | livestock_visualisation/src/sections/section2/dot_matrix/DotMatrix.tsx:81 | each item's count is at most its group's total |
| DotMatrix.TotalsZero | livestock_visualisation/src/sections/section2/dot_matrix/DotMatrix.tsx:81 | when every group totals 0 there are no units at all |
| DotMatrix.Ceil | livestock_visualisation/src/sections/section2/dot_matrix/DotMatrix.tsx:88 | `Math.ceil`: the least integer not below its argument |
| DotMatrix.MaxLines | livestock_visualisation/src/sections/section2/dot_matrix/DotMatrix.tsx:84-90 | the loop's result is the ceiling of the largest total divided by the row capacity, or 0 |
| DotMatrix.MaxLinesZero | livestock_visualisation/src/sections/section2/dot_matrix/DotMatrix.tsx:84-90 | the row count is 0 exactly when every group totals 0, including when there are no groups |
| DotMatrix.MaxLinesFits | livestock_visualisation/src/sections/section2/dot_matrix/DotMatrix.tsx:84-90 | every group fits in that many rows, and when it is positive one group does not fit in one row fewer |
| DotMatrix.GenerateArray | livestock_visualisation/src/sections/section2/dot_matrix/DotMatrix.tsx:153-180 | `generateArray` returns `count` markers numbered on from the group's earlier markers in closed form; only the item's group's counters change, and they advance by exactly `count` |
| DotMatrix.SourceStep | livestock_visualisation/src/sections/section2/dot_matrix/DotMatrix.tsx:165-177 | one turn of the loop (new row on a positive multiple of the capacity, else one column on; push; count one more) produces the closed-form marker and the counters for one more marker |
| DotMatrix.CountersSet | livestock_visualisation/src/sections/section2/dot_matrix/DotMatrix.tsx:149-151 | storing counters consistent with a marker count keeps every group's counters consistent |
| DotMatrix.ItemMarkers | livestock_visualisation/src/sections/section2/dot_matrix/DotMatrix.tsx:163-179 | an item yields exactly `count` markers |
| DotMatrix.ItemMarkersAt | livestock_visualisation/src/sections/section2/dot_matrix/DotMatrix.tsx:171-176 | the j-th marker of an item is the group's marker number `k0 + j` |
| DotMatrix.ItemMarkersOfGroup | livestock_visualisation/src/sections/section2/dot_matrix/DotMatrix.tsx:174 | an item's markers are all tagged with its group |
| DotMatrix.OfGroupAppend | livestock_visualisation/src/sections/section2/dot_matrix/DotMatrix.tsx:171 | the markers of one group in a concatenation are those of each part, in order |
| DotMatrix.Placed | livestock_visualisation/src/sections/section2/dot_matrix/DotMatrix.tsx:153-180 | the marker pass yields one marker per unit of every item's count |
| DotMatrix.PlaceMarkers | livestock_visualisation/src/sections/section2/dot_matrix/DotMatrix.tsx:148-180 | `generateArray` over every item, with counters fresh for the run, yields exactly the closed-form markers |
| DotMatrix.NumberedAppend | livestock_visualisation/src/sections/section2/dot_matrix/DotMatrix.tsx:153-177 | an item's markers continue a group's numbering from where its earlier items stopped |
| DotMatrix.PlacedByGroup | livestock_visualisation/src/sections/section2/dot_matrix/DotMatrix.tsx:149-177 | each group has as many markers as its total, numbered 0, 1, 2 … without a break, however its items interleave with other groups' |
| DotMatrix.Layout | livestock_visualisation/src/sections/section2/dot_matrix/DotMatrix.tsx:40-180 | fails exactly when the option checks fail, with the same message; otherwise the first-seen lists, exact totals, row count, canvas height `maxLines * groups * (2r + top + bottom)`, width `(2r + left + right) * capacity` and the closed-form markers |
| DotMatrix.LayoutCounts | livestock_visualisation/src/sections/section2/dot_matrix/DotMatrix.tsx:163-179 | a run places one marker per unit of count, and each group's markers number its total |
| DotMatrix.LayoutFits | livestock_visualisation/src/sections/section2/dot_matrix/DotMatrix.tsx:157-173 | every marker's column is in [0, capacity) and its height inside its group's band; no two markers of a group share a place |
| DotMatrix.RowColumnStep | livestock_visualisation/src/sections/section2/dot_matrix/DotMatrix.tsx:165-170 | the column stays below the capacity and wraps to 0 on a new row exactly when it reaches the capacity |
| DotMatrix.RowColumnDivMod | livestock_visualisation/src/sections/section2/dot_matrix/DotMatrix.tsx:165-173 | marker k is in row `k / capacity` and column `k % capacity` |
| DotMatrix.CounterStep | livestock_visualisation/src/sections/section2/dot_matrix/DotMatrix.tsx:165-170 | the x counter resets to 1 on a nonzero multiple of the capacity and otherwise goes up by 1 |
| DotMatrix.RowFits | livestock_visualisation/src/sections/section2/dot_matrix/DotMatrix.tsx:166 | a group whose total fits in the row count never goes past the band's last row |
| DotMatrix.OffsetInBand | livestock_visualisation/src/sections/section2/dot_matrix/DotMatrix.tsx:158 | every row's offset `(0.5 + row) / maxLines` lies strictly between 0 and 1 |
| DotMatrix.PlacesDistinct | livestock_visualisation/src/sections/section2/dot_matrix/DotMatrix.tsx:166-173 | two different marker numbers differ in column or in row offset |
| DotMatrix.GroupScale | livestock_visualisation/src/sections/section2/dot_matrix/DotMatrix.tsx:94-96 | a group's band is an index into `uniqueGroups` that holds the group |
| DotMatrix.CanvasHeight | livestock_visualisation/src/sections/section2/dot_matrix/DotMatrix.tsx:92-102 | the height is 0 when there are no rows, and never negative for non-negative options |
| DotMatrix.CanvasWidth | livestock_visualisation/src/sections/section2/dot_matrix/DotMatrix.tsx:103 | the width is 0 when a row holds no markers, and never negative for non-negative options |
| Database.Matching | livestock_visualisation/src/database/database.ts:38-40 | exactly the rows of the given year and location |
| Database.LastRowOf | livestock_visualisation/src/database/database.ts:48-52 | the last row for an animal: present exactly when some row names that animal |
| Database.LastWinsCorrect | livestock_visualisation/src/database/database.ts:48-52 | the per-animal object has a key exactly for the animals present, each holding the count of that animal's last row |
| Database.FilteredCorrect | livestock_visualisation/src/database/database.ts:36-61 | null exactly when no row matches; otherwise carries the arguments' year and location and, per animal, the last matching row's count |
| Database.Years | livestock_visualisation/src/database/database.ts:71 | the year of each row, in order |
| Database.Locations | livestock_visualisation/src/database/database.ts:78 | the location of each row, in order |
| Database.Animals | livestock_visualisation/src/database/database.ts:85 | the animal of each row, in order |
| Database.SortedDistinct | livestock_visualisation/src/database/database.ts:69-73 | a `Set` spread and sorted: strictly ascending and holding exactly the input's values |
| Database.Store.constructor | livestock_visualisation/src/database/database.ts:19-23 | the store starts with no rows and no current data |
| Database.Store.SetRawData | livestock_visualisation/src/database/database.ts:26-33 | `getRawData` afterwards returns exactly the list passed in; the current data is untouched |
| Database.Store.FilterData | livestock_visualisation/src/database/database.ts:36-66 | returns the filtered view of the rows, stores it as the current data, and leaves the rows unchanged |
| Database.Store.GetAvailableYears | livestock_visualisation/src/database/database.ts:69-73 | strictly ascending, and holds exactly the years present in the rows |
| Database.Store.GetAvailableLocations | livestock_visualisation/src/database/database.ts:76-80 | strictly ascending, and holds exactly the locations present in the rows |
| Database.Store.GetAnimalTypes | livestock_visualisation/src/database/database.ts:83-87 | strictly ascending, and holds exactly the animals present in the rows |
| Database.Store.GetRawData | livestock_visualisation/src/database/database.ts:31-33 | returns the rows last stored, unchanged |
| Database.Store.GetCurrentData | livestock_visualisation/src/database/database.ts:64-66 | returns the result of the last filter, or none |
| Database.Filtered | livestock_visualisation/src/database/database.ts:36-61 | null exactly when no row has the year and location; otherwise the result carries that year and location |
| Database.LastWins | livestock_visualisation/src/database/database.ts:48-52 | the per-animal object has a key for exactly the animals of the matching rows |
| DataLoader.Split | livestock_visualisation/src/database/dataloader.ts:10 | `String.split` on one character: at least one piece, none holding the separator |
| DataLoader.JoinSplit | livestock_visualisation/src/database/dataloader.ts:10 | splitting loses nothing: joining the pieces gives the text back |
| DataLoader.SplitJoin | livestock_visualisation/src/database/dataloader.ts:19 | pieces free of the separator come back from a split of their join |
| DataLoader.SplitCons | livestock_visualisation/src/database/dataloader.ts:10-11 | the text before the first newline is the first piece; the rest splits on its own |
| DataLoader.LeadingSpace | livestock_visualisation/src/database/dataloader.ts:17 | the length of the leading whitespace is within the string |
| DataLoader.TrailingSpace | livestock_visualisation/src/database/dataloader.ts:17 | the length of the trailing whitespace is within the string |
| DataLoader.LeadingSpaceSpec | livestock_visualisation/src/database/dataloader.ts:17 | `trim` removes exactly the maximal leading run of whitespace |
| DataLoader.TrailingSpaceSpec | livestock_visualisation/src/database/dataloader.ts:17 | `trim` removes exactly the maximal trailing run of whitespace |
| DataLoader.TrimEmpty | livestock_visualisation/src/database/dataloader.ts:17 | a line trims to empty exactly when all of it is whitespace |
| DataLoader.LeadingDigits | livestock_visualisation/src/database/dataloader.ts:25 | the run of leading decimal digits is within the string |
| DataLoader.ParseInt | livestock_visualisation/src/database/dataloader.ts:25 | `parseInt` never gives null: a number or NaN |
| DataLoader.NatToString | livestock_visualisation/src/database/dataloader.ts:25 | a decimal numeral is a non-empty run of digits |
| DataLoader.DigitsValueOf | livestock_visualisation/src/database/dataloader.ts:25 | reading back a natural's numeral gives the natural |
| DataLoader.LeadingDigitsOf | livestock_visualisation/src/database/dataloader.ts:25 | the digit run of digits followed by a non-digit ends at the non-digit |
| DataLoader.ReadDigitsRun | livestock_visualisation/src/database/dataloader.ts:25 | a digit run followed by a non-digit reads as the run's value |
| DataLoader.ParseIntDigits | livestock_visualisation/src/database/dataloader.ts:25 | `parseInt` of digits followed by anything not a digit is the digits' value |
| DataLoader.ParseIntNegative | livestock_visualisation/src/database/dataloader.ts:25 | `parseInt` of a minus sign and digits is the negated value |
| DataLoader.ParseIntNumeral | livestock_visualisation/src/database/dataloader.ts:25 | `parseInt` reads back any integer's decimal numeral, whatever non-digit text follows |
| DataLoader.ParseSignedMinus | livestock_visualisation/src/database/dataloader.ts:25 | a leading minus negates the digits after it |
| DataLoader.TrimStartNoop | livestock_visualisation/src/database/dataloader.ts:25 | text not starting with whitespace is not changed by skipping leading whitespace |
| DataLoader.ParseCount | livestock_visualisation/src/database/dataloader.ts:25 | the count is null exactly when the field is `NA`, and is otherwise `parseInt` of the field |
| DataLoader.ParseRowFields | livestock_visualisation/src/database/dataloader.ts:19-26 | a row made of comma-free fields gives back fields 0-3 as type, location, year and animal, and field 4 as the count |
| DataLoader.NonBlankMembers | livestock_visualisation/src/database/dataloader.ts:17 | the lines kept are exactly the lines that are not all whitespace |
| DataLoader.RecordsOfNonBlank | livestock_visualisation/src/database/dataloader.ts:16-29 | one record per non-blank line, in file order, each that line parsed |
| DataLoader.HeaderSkipped | livestock_visualisation/src/database/dataloader.ts:10-16 | the first line is the header and never becomes a record; the records come from the lines after it |
| DataLoader.RecordsStep | livestock_visualisation/src/database/dataloader.ts:17-28 | one turn of the loop: a blank line adds nothing, any other line adds its parsed record |
| DataLoader.ParseCsv | livestock_visualisation/src/database/dataloader.ts:10-29 | the loop yields exactly the records of the lines after the header |
| DataLoader.LoadData | livestock_visualisation/src/database/dataloader.ts:10-33 | the store's rows become the complete parsed list, the current data is untouched, and the result is true |
| DataLoader.Trim | livestock_visualisation/src/database/dataloader.ts:17 | the trimmed line is no longer than the line and neither starts nor ends with whitespace |
| DataLoader.ParseRow | livestock_visualisation/src/database/dataloader.ts:19-26 | no field of a parsed row contains a comma |
| DataLoader.ParsedFile | livestock_visualisation/src/database/dataloader.ts:10-29 | at most one record per line after the header |
| MultiYear.AtLocation | livestock_visualisation/src/sections/section2/section2.1.tsx:19 | exactly the rows of the given location |
| MultiYear.Counted | livestock_visualisation/src/sections/section2/section2.1.tsx:29-31 | exactly the rows of one year whose count is not null |
| MultiYear.Records | livestock_visualisation/src/sections/section2/section2.1.tsx:35-42 | one record per year in the map's order, each holding that year's counts |
| MultiYear.GetMultiYearData | livestock_visualisation/src/sections/section2/section2.1.tsx:17-46 | the two `forEach` loops and the sort yield exactly the pivot `MultiYearData` of the stored rows |
| MultiYear.GroupStep | livestock_visualisation/src/sections/section2/section2.1.tsx:24-32 | one turn of the grouping loop (add the year if new, then set the animal unless the count is null) keeps the map equal to the grouping of one more row |
| MultiYear.YearCountsUnseen | livestock_visualisation/src/sections/section2/section2.1.tsx:25-27 | a year with no rows so far has an empty inner map |
| MultiYear.YearCountsCorrect | livestock_visualisation/src/sections/section2/section2.1.tsx:24-32 | a year's inner map has its animals in first-set order, and each holds the count of the last non-null row for it |
| MultiYear.PutValid | livestock_visualisation/src/sections/section2/section2.1.tsx:26-30 | `Map.set` keeps the key order duplicate-free and in step with the entries |
| MultiYear.SnocStep | livestock_visualisation/src/sections/section2/section2.1.tsx:30 | a later row's count replaces the earlier one for its animal |
| MultiYear.LastWinsKeys | livestock_visualisation/src/sections/section2/section2.1.tsx:30 | the animals with a count are exactly the animals of the rows |
| MultiYear.YearsMembers | livestock_visualisation/src/sections/section2/section2.1.tsx:25 | a year is among the rows' years exactly when some row has it |
| MultiYear.RecordsYears | livestock_visualisation/src/sections/section2/section2.1.tsx:35-42 | the records carry the map's years, in the map's order |
| MultiYear.SortedYears | livestock_visualisation/src/sections/section2/section2.1.tsx:45 | sorting the records keeps exactly the same years |
| MultiYear.MultiYearDataYears | livestock_visualisation/src/sections/section2/section2.1.tsx:19-45 | one record per distinct year of the location's rows, strictly ascending by year |
| MultiYear.RecordOf | livestock_visualisation/src/sections/section2/section2.1.tsx:35-45 | every record holds its year's counts from the location's rows |
| MultiYear.MultiYearDataCounts | livestock_visualisation/src/sections/section2/section2.2.tsx:19-45 | each record has an animal exactly when a non-null row of that location and year names it, holding the last such row's count |
| MultiYear.MultiYearDataEmpty | livestock_visualisation/src/sections/section2/section2.1.tsx:19-42 | the pivot is empty exactly when no row has the location |
| MultiYear.NullYearKept | livestock_visualisation/src/sections/section2/section2.1.tsx:24-42 | a year whose counts are all null still gets a record, holding only the year |
| MultiYear.NonYear | livestock_visualisation/src/sections/section2/section2.1.tsx:62 | the keys other than `year` |
| MultiYear.AllAnimalKeys | livestock_visualisation/src/sections/section2/section2.2.tsx:58 | the `flatMap` of every record's keys other than `year` |
| MultiYear.AnimalUnionCorrect | livestock_visualisation/src/sections/section2/section2.2.tsx:58 | the animal list has no duplicates and holds exactly the animals of any record |
| MultiYear.ChartYears | livestock_visualisation/src/sections/section2/section2.1.tsx:154 | the year of each record, in order |
| MultiYear.EvenIndexed | livestock_visualisation/src/sections/section2/section2.1.tsx:155 | the filter `i % 2 === 0` keeps the elements at even indices, in order |
| MultiYear.TickYearsCorrect | livestock_visualisation/src/sections/section2/section2.2.tsx:138-139 | the tick years are exactly the years at even indices of the data order |
| MultiYear.MultiYearData | livestock_visualisation/src/sections/section2/section2.1.tsx:17-46 | one record per distinct year of the location |
| MultiYear.Put | livestock_visualisation/src/sections/section2/section2.1.tsx:26-30 | `Map.set` gives the key the new value and leaves every other entry as it was |
| MultiYear.ObjectKeys | livestock_visualisation/src/sections/section2/section2.1.tsx:61 | `year` comes first, followed by exactly the record's animal keys |
| MultiYear.AnimalUnion | livestock_visualisation/src/sections/section2/section2.2.tsx:58 | the animal list has no duplicates and holds exactly the non-`year` keys of the records |
| MultiYear.TickYears | livestock_visualisation/src/sections/section2/section2.2.tsx:138-139 | keeps the years at even positions: half the records, rounded up |
| MultiYear.CountedAnimal | livestock_visualisation/src/sections/section2/section2.1.tsx:25-30 | an animal has a count in a year's inner map exactly when some row of that location and year gives it a non-null count |
| MultiYear.NullRecord | livestock_visualisation/src/sections/section2/section2.1.tsx:25-31 | a year whose rows all have null counts gives a record with no animal keys |
| Section21.AnimalKeys | livestock_visualisation/src/sections/section2/section2.1.tsx:59-65 | the nested loops filling a `Set` yield the duplicate-free union of all non-`year` keys |
| Section21.KeyStep | livestock_visualisation/src/sections/section2/section2.1.tsx:61-62 | a key other than `year` is offered to the set, and `year` is skipped |
| Section21.RecordStep | livestock_visualisation/src/sections/section2/section2.1.tsx:60-63 | the keys of one more record come after those of the earlier ones |
| Section21.Effect | livestock_visualisation/src/sections/section2/section2.1.tsx:52-67 | nothing is rendered exactly when the location is empty or has no rows; otherwise the pivot, its animal list and the selected year |
| Section22.Effect | livestock_visualisation/src/sections/section2/section2.2.tsx:53-61 | nothing is rendered exactly when the location is empty or has no rows; otherwise the pivot, its animal list and the selected year |
| Section22.RecordMax | livestock_visualisation/src/sections/section2/section2.2.tsx:103 | the inner `d3.max` is at least every animal's value and equals one of them |
| Section22.DataMax | livestock_visualisation/src/sections/section2/section2.2.tsx:103 | the outer `d3.max` bounds every record's values and is attained |
| Section22.MaxCount | livestock_visualisation/src/sections/section2/section2.2.tsx:103 | 0 with no data or no animals; otherwise the largest value, missing read as 0 |
| Section22.MaxCountNonNegative | livestock_visualisation/src/sections/section2/section2.2.tsx:103 | with no negative counts, the y domain starts at 0 and does not end below it |
| Section22.RadiusAfter | livestock_visualisation/src/sections/section2/section2.2.tsx:119-132 | after any pointer events, the selected year's point has radius 8 or 12 and any other point 4 or 6 |
| Section22.SelectedLarger | livestock_visualisation/src/sections/section2/section2.2.tsx:119-132 | the selected year's point is always larger than any other point |
| Section22.HoverAndRestore | livestock_visualisation/src/sections/section2/section2.2.tsx:123-132 | hovering enlarges a point by half, and mouseout restores its initial radius |
| Section22.Value | livestock_visualisation/src/sections/section2/section2.2.tsx:103 | a non-zero value is the animal's stored count |
| Section22.Radius | livestock_visualisation/src/sections/section2/section2.2.tsx:119 | radius 8 exactly for the selected year, 4 otherwise |
| Section22.HoverRadius | livestock_visualisation/src/sections/section2/section2.2.tsx:123 | the hover radius is one and a half times the resting radius |
| ActiveCategories.Label | livestock_visualisation/src/sections/context.tsx:4 | every category has a non-empty name |
| ActiveCategories.LabelInjective | livestock_visualisation/src/sections/context.tsx:4 | different categories have different names |
| ActiveCategories.InitialAll | livestock_visualisation/src/sections/context.tsx:14 | every category is active initially |
| ActiveCategories.Toggle | livestock_visualisation/src/sections/context.tsx:15-21 | the toggled category flips membership, and every other category keeps its own |
| ActiveCategories.ToggleTwice | livestock_visualisation/src/sections/context.tsx:17-20 | toggling the same category twice restores the set |
| ActiveCategories.UseActiveCategories | livestock_visualisation/src/sections/context.tsx:30-34 | fails exactly when no provider is present, with the source's message; otherwise gives the provider's value |
| ActiveCategories.InitialActive | livestock_visualisation/src/sections/context.tsx:14 | the initial set is exactly the four categories beef cattle, dairy cattle, sheep and deer |

## Left out

- Rendering: SVG, axes, legends, colour scales, tooltips, `d3.stack` in section 2.1 and the pixel mapping by `d3.scaleLinear` are DOM and library calls. Only the values they are given are modelled.
- `groupScale` (`d3.scalePoint` over `[0, groups - 1]`) is modelled as the group's index in `uniqueGroups`, the value it gives there.
- `fetch`, `async` and the `try`/`catch` of `loadData` are I/O. `LoadData` takes the file text as a parameter, so the catch path that returns false is not modelled.
- React state and hooks: `useState`, `useEffect` re-run timing and the context plumbing. The effects are modelled as methods of their inputs, and `useActiveCategories` takes the context value as an `Option`.
- `dataProcessor.py` and the application shell and other sections (`App.tsx`, `section1.tsx`, `section2.tsx`, `section3.tsx`, `section4.tsx`) are not part of this model; they hold no logic of the charts modelled here.
- `updateData` in `dataloader.ts` only forwards to `filterData`, which is modelled.
- DotMatrix.Layout: requires the row capacity to be a whole number of at least 1. The source does not check it. With a fractional capacity the source wraps to a new row only when the marker count in the group is a multiple of the capacity (2.5 wraps every 5 markers), so a column can reach the capacity or go past it and the column bound of `LayoutFits` would not hold. With a zero capacity `x % 0` is NaN, so the source never wraps.
- DotMatrix.GenerateArray: row offsets and options are exact reals. The source accumulates the row offset in floating point (`0.5 / maxLines`, then `+= 1 / maxLines`, DotMatrix.tsx:158 and 166), so its offsets can differ from the closed form in the last bits; that rounding and infinite options are not modelled.
- DotMatrix.Layout: counts are natural numbers. Negative or fractional counts, which the source does not check, are not modelled.
- DotMatrix.Layout: when the row count is 0 (every total is 0), the source seeds a row offset of `0.5 / 0`, but no marker is ever made. The model skips the marker pass in that case.
- DotMatrix.GenerateArray: the three per-group dictionaries, mutated in place in the source, are one map of per-group counters passed in and returned.
- Database.Store.FilterData: the per-animal object is a map, so the order of its keys is not modelled.
- DotMatrix.CollectUnique: the source tests first occurrence with plain `{}` objects (DotMatrix.tsx:65 and 69). A category or group named after an `Object.prototype` property (`constructor`, `toString`, `hasOwnProperty`, `__proto__`) already reads as present there and would be dropped; such names are not modelled, and the model keeps them.
- DotMatrix.SumGroups: a group named after an `Object.prototype` property starts from the inherited value instead of 0 in the source (DotMatrix.tsx:78); such names are not modelled.
- DotMatrix.GenerateArray: the per-group counters are plain `{}` objects (DotMatrix.tsx:154-162); a group named after an `Object.prototype` property is not modelled.
- Database.Store.FilterData: an animal named `__proto__` is not stored as an own key by the assignment at database.ts:51; names of `Object.prototype` properties are not modelled, and `Database.LastWins` keeps them as ordinary keys.
- MultiYear.GetMultiYearData: an animal named `__proto__` is not stored as an own key by the record assignment at section2.1.tsx:39; names of `Object.prototype` properties are not modelled, and `MultiYear.Records` keeps them as ordinary keys.
- MultiYear.GetMultiYearData: the inner `Map` is mutated through an alias in the source; the model puts the updated value back into the outer map.
- MultiYear.GetMultiYearData: the record object is modelled as the year plus the ordered map of counts. An animal literally named `year` would overwrite the year field in the source; this is not modelled.
- MultiYear.ObjectKeys: `Object.keys` lists integer-like keys first; the model keeps insertion order. This affects only the order of the animal list.
- Section22.MaxCount: `Number(d[key]) || 0` is modelled as the count, or 0 when the animal is missing or its count is NaN. Keys inherited from `Object.prototype` are not modelled.
- `localeCompare` and `.sort()` are modelled as lexicographic order on characters. Locale collation is not modelled, and neither is UTF-16 code-unit order for characters outside the Basic Multilingual Plane.
- DataLoader.ParseInt: models base-10 `parseInt` on unbounded integers: leading whitespace, an optional sign, then the longest run of ASCII digits. Precision loss above 2^53 is not modelled.
- DataLoader.ParseRow: a line with fewer than five fields reads its missing fields as the empty string. In the source a missing field is `undefined` (dataloader.ts:21-25). For the count this makes no difference: `parseInt(undefined, 10)` is NaN, as is the model's parse of the empty string. For the four text fields the model differs: `.sort()` puts `undefined` last in `getAvailableYears`, `getAvailableLocations` and `getAnimalTypes`, where the model's empty string sorts first; `filterData(year, "")` and `getMultiYearData("")` match such rows only in the model, since `undefined === ""` is false; and an `undefined` animal becomes the key `"undefined"` of the per-animal object, where the model's key is the empty string. A Windows line ending leaves `\r` on the last field, so `NA\r` parses as NaN, not null; the model does the same as the code.
