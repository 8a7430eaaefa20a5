# Contract timeline engine

A Dafny model of the computational core of `contratos_timeline.py`. The script is a Streamlit page. It loads an
employment-contract sheet, one row per contract with a person's DNI, a category (`CATEGORIA`), a start date
(`Falta`) and an end date (`Fbaja`). It then draws two views of the contracts of the selected categories:

- a month-by-month count of active contracts per category;
- a detailed timeline with one horizontal bar per contract.

A small table summarises each category. The model covers the logic under those views:

- **Record sanitiser** (`sanitizer.dfy`, module `Sanitizer`):
  - drops rows that lack any of the four fields;
  - zero-fills the DNI to width 9 with Python's `str.zfill`, including its sign rule;
  - strips the category with Python's `str.strip`, using the `str.isspace` character set;
  - computes the duration in days and keeps rows whose duration lies in `[0, 10000]`, in input order.
- **Dates** (`dates.dfy`): proleptic Gregorian dates with a closed-form day number. Timestamps compare by day
  number; the model proves that this is the same as calendar order.
- **Selections** (`selection.dfy`): the pandas filters the views share, all order-preserving:
  - `isin` on the categories;
  - `==` on one category;
  - `==` on one DNI;
  - `unique()` on the DNI column, which keeps first-appearance order.
- **Month grid and activity counter** (`monthly_activity.dfy`):
  - the grid holds the first days of the months from the month of the earliest start to the month of the latest
    end;
  - for each selected category, in caller order, each grid point `m` gets the number of that category's rows with
    `start <= m <= end`. This is a containment test at the sampling instant.
  - The nested loops are methods proved against the functions `Counts` and `SeriesOf`.
- **Timeline layout** (`timeline_layout.dfy`): the row counter of `create_timeline_chart`.
  - Categories are visited in caller order. A category without rows is skipped.
  - Each drawn category records its start row. Each of its distinct persons, in first-appearance order, takes the
    next row, and all of that person's contracts are drawn on it. The counter then advances by 2.
  - The axis label of a category sits at its start row plus half its number of distinct persons.
  - The three nested loops are methods proved against the function `LayoutOf`.
- **Year markers** (`year_markers.dfy`): `range(min.year + 1, max.year + 1)` for the timeline, and
  `sorted(set(years of the grid))[1:]` for the activity chart. The model proves that both give the same years.
- **Summary table** (`summary.dfy`): contracts and distinct persons per selected category.
- **Worked example** (`scenario.dfy`): two contracts of one category, evaluated through every view.

`wrappers.dfy` holds `Option` and `Result`; `seqs.dfy` holds `NoDup`, `IndexOf` and first-appearance
deduplication (`Unique`).

Points where the code's behaviour is easy to misread:

- The timeline gives one row per distinct person, not one per contract. The increment of `y_position` at line 145
  sits in the person loop, outside the contract loop.
- A selected category with no rows gets an all-zero series of grid length, not an empty one
  (`MonthlyActivity.AbsentCategoryCountsZero`).
- For contracts 2020-01-10..2020-03-05 and 2020-02-01..2020-02-20 the counts are `[0, 2, 1]`, because the
  2020-01-01 grid point comes before the first start (`Scenario.ExampleActivity`).
- `str.zfill` keeps a leading `+`/`-` in front of the zeros. So the zero-filled DNI ends with the original string
  only for unsigned DNIs (`Sanitizer.ZFillShape`).

Several lemmas require `NoDup` of the selected categories. The page's multiselect widget only yields distinct
options. The functions themselves use the selection as given.

## Model

| member | source | states |
|---|---|---|
| Sanitizer.ZFill | contratos_timeline.py:33 | the zero-filled DNI is as long as the input, or 9 characters when the input is shorter |
| Sanitizer.ZFillShape | contratos_timeline.py:33 | a long string is unchanged; otherwise an unsigned DNI ends with the original behind '0's only, and a signed one keeps its sign first, then '0's, then the rest |
| Sanitizer.ZFillIdempotent | contratos_timeline.py:33 | zero-filling twice equals zero-filling once |
| Sanitizer.StripStartIsSuffix | contratos_timeline.py:34 | removing leading whitespace leaves a suffix, and everything removed is whitespace |
| Sanitizer.StripEndIsPrefix | contratos_timeline.py:34 | removing trailing whitespace leaves a prefix, and everything removed is whitespace |
| Sanitizer.Strip | contratos_timeline.py:34 | the stripped category is no longer than the input and neither starts nor ends with whitespace |
| Sanitizer.StripIsSlice | contratos_timeline.py:34 | the stripped category is a contiguous slice of the input with only whitespace outside it |
| Sanitizer.StripIdempotent | contratos_timeline.py:34 | stripping twice equals stripping once |
| Sanitizer.Clean | contratos_timeline.py:30-40 | a row is kept exactly when all four fields are present and `0 <= end - start <= 10000` days; a kept row has the zero-filled DNI, the stripped category, the same dates and the day difference as duration |
| Sanitizer.Sanitize | contratos_timeline.py:30-40 | every kept row is well formed (DNI of width at least 9, stripped category, duration equal to the day difference, within bounds, start not after end), and no rows are added |
| Sanitizer.SanitizeAppend | contratos_timeline.py:30-40 | the sanitiser works row by row: the cleaned concatenation is the concatenation of the cleaned parts, so input order is kept |
| Sanitizer.SanitizeSingle | contratos_timeline.py:30-40 | a one-row sheet keeps exactly its cleaned row, or nothing |
| Sanitizer.SanitizeMembers | contratos_timeline.py:30-40 | a contract is in the output iff it is the cleaned form of some input row that passes |
| Sanitizer.EndBeforeStartDropped | contratos_timeline.py:37-40 | a row whose end precedes its start in the calendar is dropped |
| Sanitizer.DurationBoundary | contratos_timeline.py:37-40 | a duration of exactly 10000 days is kept and one of 10001 is dropped |
| Sanitizer.BoundaryDays | contratos_timeline.py:37 | 2000-01-01 to 2027-05-19 is 10000 days, and to 2027-05-20 is 10001 |
| Dates.YearStep | contratos_timeline.py:37 | consecutive 1 Januaries lie one Gregorian year length apart in day numbers |
| Dates.CalendarOrderIsDayOrder | contratos_timeline.py:37 | on valid dates calendar order is day-number order |
| Dates.DateOrderIsDayOrder | contratos_timeline.py:40 | timestamp `<=` and `<` are day-number `<=` and `<` |
| Dates.DayNumberInjective | contratos_timeline.py:37 | distinct valid dates have distinct day numbers |
| Dates.MonthStart | contratos_timeline.py:61-63 | the first day of the month with a given index has that index and day 1 |
| Dates.MonthFloor | contratos_timeline.py:61-62 | `replace(day=1)` keeps the month, has day 1 and is not after the date |
| Dates.MonthStartSucc | contratos_timeline.py:61-63 | the next month index gives the next month start, December rolling over into January |
| Dates.MonthStartsAscend | contratos_timeline.py:61-63 | month starts ascend strictly with their index |
| Dates.BeforeNewYear | contratos_timeline.py:152-154 | a date lies strictly before 1 January of `y` iff its year is before `y` |
| Dates.MonthStartOfIndex | contratos_timeline.py:61-63 | a first-of-month date is the month start of its own index |
| Dates.MonthStartLe | contratos_timeline.py:61-63 | a date is on or after the start of month `k` iff its month index is at least `k` |
| Selection.InCategories | contratos_timeline.py:54 | the selection keeps only rows of the frame whose category is selected |
| Selection.OfCategory | contratos_timeline.py:68 | the rows of one category are rows of the frame with that category |
| Selection.OfPerson | contratos_timeline.py:121 | the rows of one DNI are rows of the frame with that DNI |
| Selection.Persons | contratos_timeline.py:120 | `unique()` has no repeats and holds exactly the DNIs of the frame |
| Seqs.Unique | contratos_timeline.py:120 | deduplication has no repeats, keeps exactly the elements of the input and is no longer |
| Seqs.UniqueKeepsFirstAppearanceOrder | contratos_timeline.py:120 | deduplication lists elements in the order of their first appearance |
| Selection.PersonsCover | contratos_timeline.py:120 | every row's DNI is among the persons |
| Selection.PersonsSound | contratos_timeline.py:120 | every person has a row |
| Selection.PersonsEmpty | contratos_timeline.py:114-120 | a frame has persons exactly when it has rows |
| Selection.InCategoriesAppend | contratos_timeline.py:54 | the category selection works row by row: selecting from a concatenation concatenates the selections, so frame order and repeated rows are kept |
| Selection.InCategoriesSingle | contratos_timeline.py:54 | a single row is kept exactly when its category is selected |
| Selection.OfCategoryAppend | contratos_timeline.py:68 | one category's rows of a concatenation are its rows of each part, in frame order |
| Selection.OfCategorySingle | contratos_timeline.py:68 | a single row is kept exactly when it has the category |
| Selection.OfPersonAppend | contratos_timeline.py:121 | one DNI's rows of a concatenation are its rows of each part, in frame order |
| Selection.OfPersonSingle | contratos_timeline.py:121 | a single row is kept exactly when it has the DNI |
| Selection.InCategoriesAddCategory | contratos_timeline.py:54 | adding a new category to the selection adds exactly that category's rows |
| Selection.OfCategoryOfSelection | contratos_timeline.py:54-68 | one selected category's rows within the selection are its rows in the whole frame |
| Selection.InCategoriesIdempotent | contratos_timeline.py:54 | filtering a selection again by the same categories changes nothing |
| Selection.InCategoriesKeeps | contratos_timeline.py:54 | every row of a selected category is in the selection |
| Selection.OfCategoryKeeps | contratos_timeline.py:68 | every row of a category is among that category's rows |
| Selection.OfPersonKeeps | contratos_timeline.py:121 | every row is among the rows of its own DNI |
| Selection.OfPersonsAddPerson | contratos_timeline.py:120-121 | adding a new person adds exactly that person's rows |
| Selection.OfPersonsAll | contratos_timeline.py:120-121 | taking the rows of all persons of a frame gives the frame |
| Selection.InCategoriesNone | contratos_timeline.py:54 | an empty selection selects no row |
| Selection.OfPersonsNone | contratos_timeline.py:120-121 | no person selects no row |
| MonthlyActivity.CountActive | contratos_timeline.py:73-76 | the active count is at most the number of rows |
| MonthlyActivity.CountActiveIsCardinality | contratos_timeline.py:73-76 | the count is the number of row positions whose contract has `start <= m <= end` |
| MonthlyActivity.CountActiveAppend | contratos_timeline.py:73-76 | counting is additive over concatenated row sets |
| MonthlyActivity.Counts | contratos_timeline.py:71-77 | one count per grid point |
| MonthlyActivity.AbsentCategoryCountsZero | contratos_timeline.py:67-82 | a category without rows gets an all-zero list of grid length |
| MonthlyActivity.MinStart | contratos_timeline.py:57 | the earliest start is some row's start and is not after any row's start |
| MonthlyActivity.MaxEnd | contratos_timeline.py:58 | the latest end is some row's end and is not before any row's end |
| MonthlyActivity.MonthRange | contratos_timeline.py:61-63 | the grid has one point per month index from the first month start on or after `lo` to the month of `hi` |
| MonthlyActivity.FirstMonthIndexBound | contratos_timeline.py:61-63 | a month start is on or after `lo` iff its index is at least the first index |
| MonthlyActivity.MonthRangeExact | contratos_timeline.py:61-63 | a date is a grid point iff it has day 1 and lies in `[lo, hi]` |
| MonthlyActivity.MonthRangeSteps | contratos_timeline.py:61-63 | every grid point has day 1, each is the next month start of the one before, and the grid is strictly ascending |
| MonthlyActivity.MonthGridEnds | contratos_timeline.py:57-63 | over sanitised rows the grid is non-empty and runs from the month floor of the earliest start to the month floor of the latest end |
| MonthlyActivity.CountAlong | contratos_timeline.py:71-77 | the month loop's list is the count at each grid point |
| MonthlyActivity.ActiveContractsByMonth | contratos_timeline.py:48-84 | empty frame gives `{}`; a non-empty frame with an empty selection gives the error value; otherwise the keys are exactly the selected categories and each entry is the grid with that category's counts |
| MonthlyActivity.CountActiveAddCategory | contratos_timeline.py:54-76 | adding a new category adds its own count to the selection's count |
| MonthlyActivity.CountsAddUp | contratos_timeline.py:54-76 | over distinct categories the per-category counts add up to the count over the union of their rows |
| MonthlyActivity.SeriesAddUp | contratos_timeline.py:54-82 | at every grid point the series of distinct selected categories add up to the number of selected rows active there, with or without the pre-filter |
| MonthlyActivity.TotalOverSelection | contratos_timeline.py:54-68 | per-category counts over the selection equal those over the whole frame |
| YearMarkers.Range | contratos_timeline.py:152 | `range(lo, hi)` has `max(0, hi - lo)` elements, ascends strictly and holds exactly the integers `x` with `lo <= x < hi` |
| YearMarkers.TimelineYearsAreNewYears | contratos_timeline.py:151-154 | the timeline's years ascend strictly and are exactly the years whose 1 January lies in `(first, last]` |
| YearMarkers.SameYearNoMarkers | contratos_timeline.py:152 | two dates of the same year give no marker |
| YearMarkers.InsertSorted | contratos_timeline.py:227 | inserting into an ascending list keeps it strictly ascending and adds exactly the new value |
| YearMarkers.SortedDistinct | contratos_timeline.py:227 | `sorted(set(xs))` is strictly ascending and holds exactly the values of `xs` |
| YearMarkers.AscendingBySet | contratos_timeline.py:227 | two strictly ascending lists with the same elements are equal |
| YearMarkers.YearsOfMonthRange | contratos_timeline.py:227 | a contiguous grid meets exactly the years from its first to its last month |
| YearMarkers.ActivityYearsOfRange | contratos_timeline.py:227-228 | over a contiguous grid, the activity chart's markers are `range(first year + 1, last year + 1)` |
| YearMarkers.ViewsMarkSameYears | contratos_timeline.py:152-228 | on the same sanitised selection both charts mark the same years |
| YearMarkers.GridYears | contratos_timeline.py:152-228 | the markers of the grid between two month floors are the timeline's markers of the two dates |
| TimelineLayout.PersonBars | contratos_timeline.py:123-131 | one bar per contract of the person |
| TimelineLayout.DrawPerson | contratos_timeline.py:123-143 | the contract loop appends the person's bars on the person's row |
| TimelineLayout.DrawCategory | contratos_timeline.py:120-145 | the person loop appends the category's block, and the counter ends one past the last person's row |
| TimelineLayout.CreateTimelineChart | contratos_timeline.py:86-193 | no chart for an empty frame, an empty selection or a selection without rows; otherwise the bars, start rows and final counter of `LayoutOf`, the markers of the date range and the labels of the layout's positions |
| TimelineLayout.FootprintGrows | contratos_timeline.py:111-148 | a longer prefix of the selection takes at least the rows of a shorter one plus the next block |
| TimelineLayout.LayoutHeight | contratos_timeline.py:105-148 | the final counter is the sum over non-empty categories of persons + 2 |
| TimelineLayout.LayoutKeys | contratos_timeline.py:114-117 | a category gets a start row iff it is selected and has rows |
| TimelineLayout.LayoutPositions | contratos_timeline.py:111-148 | over distinct categories, a category's start row is the rows taken by the categories before it |
| TimelineLayout.BlocksOrdered | contratos_timeline.py:111-148 | an earlier category's block and its separator end at or before a later category's start row |
| TimelineLayout.PersonBarsMembers | contratos_timeline.py:123-131 | a person's bars are on that person's row and show that person's contracts |
| TimelineLayout.BlockRows | contratos_timeline.py:120-145 | within a block, each contract is on the start row plus its person's index among the distinct persons |
| TimelineLayout.LayoutRows | contratos_timeline.py:111-148 | every bar shows a contract of a selected, drawn category, on that category's start row plus its person's index in first-appearance order |
| TimelineLayout.SharedRowsArePersons | contratos_timeline.py:120-145 | within a category two bars share a row iff they belong to the same person |
| TimelineLayout.EarlierBlocksBelow | contratos_timeline.py:111-148 | every row of an earlier category is at least 3 below every row of a later one |
| TimelineLayout.RowsWithinHeight | contratos_timeline.py:105-148 | every row is non-negative and at least 3 below the final counter |
| TimelineLayout.DrawnAppend | contratos_timeline.py:129-131 | the contracts of concatenated bars are the concatenation of their contracts |
| TimelineLayout.DrawnPerson | contratos_timeline.py:120-131 | drawing one more person adds exactly that person's contracts |
| TimelineLayout.DrawnRows | contratos_timeline.py:123-131 | a person's bars show exactly that person's contracts, in order |
| TimelineLayout.BlockDrawnStep | contratos_timeline.py:120-131 | one more person in a block adds exactly that person's contracts |
| TimelineLayout.OfPersonsStep | contratos_timeline.py:120-121 | one more distinct person adds exactly that person's rows |
| TimelineLayout.BlockCovers | contratos_timeline.py:120-131 | the first `j` persons of a block draw exactly their own contracts |
| TimelineLayout.LayoutCovers | contratos_timeline.py:111-143 | over distinct categories, every contract of the selected categories is drawn exactly as often as it occurs, and nothing else |
| TimelineLayout.TickValues | contratos_timeline.py:186-189 | each label names a selected category with a position, at that position plus half its distinct persons |
| TimelineLayout.TicksCover | contratos_timeline.py:186-189 | every selected category with a position is labelled |
| TimelineLayout.TicksInOrder | contratos_timeline.py:186-189 | over distinct categories the labels follow the selection order |
| TimelineLayout.TicksNamePositions | contratos_timeline.py:188-189 | only categories with a position are labelled |
| TimelineLayout.LayoutTickInBlock | contratos_timeline.py:117-189 | each label lies strictly inside its block's rows `(p, p + k)`, with `k >= 1` |
| TimelineLayout.LayoutTicksNameBlocks | contratos_timeline.py:117-189 | the labels name exactly the drawn categories |
| TimelineLayout.LayoutTicksAscend | contratos_timeline.py:111-189 | over distinct categories the label values rise strictly |
| Summary.CategorySummary | contratos_timeline.py:325-330 | one row per selected category, in order, with its number of contracts and of distinct persons |
| Summary.ContractsAddUp | contratos_timeline.py:299-329 | over distinct categories the per-category contract numbers add up to the selection's size |
| Summary.SummaryTotal | contratos_timeline.py:299-329 | the contracts column adds up to the `Total Contratos` figure |
| Summary.SummaryRowBounds | contratos_timeline.py:325-330 | a category has no more persons than contracts, has persons iff it has contracts, and then takes persons + 2 timeline rows |
| Scenario.ExampleGrid | contratos_timeline.py:57-63 | the example's grid is 2020-01-01, 2020-02-01, 2020-03-01 |
| Scenario.ExampleActivity | contratos_timeline.py:67-82 | the example's series is that grid with counts 0, 2, 1 |
| Scenario.ExamplePersons | contratos_timeline.py:120-121 | the example has two persons in order, each with one contract |
| Scenario.ExampleLayout | contratos_timeline.py:105-148 | the example's persons get rows 0 and 1, the category starts at 0 and the counter ends at 4 |
| Scenario.ExampleTicks | contratos_timeline.py:186-189 | the example's category label sits at 1.0 |
| Scenario.ExampleYears | contratos_timeline.py:151-152 | the example's dates share a year, so there is no marker |

## Left out

- Streamlit: page configuration, sidebar, file upload, widgets, metrics, warnings and spinner. This is UI with no
  logic. The "Total Personas" and "Categorías Seleccionadas" metrics are left out for the same reason; the
  "Total Contratos" figure appears only as the target of `Summary.SummaryTotal`.
- `pd.read_excel` and `pd.to_datetime(..., errors='coerce')`. These are file I/O and foreign parsing. Their output
  is modelled as already-parsed `Option` fields, with `None` for a missing or unparseable cell.
- `astype(str)` of non-string DNI and category cells. It formats foreign values; DNIs and categories are modelled
  as strings.
- Time of day. Dates are calendar days, so `.dt.days` is a plain day difference.
- Range limits of pandas timestamps. Years are unbounded.
- Plotly figures, traces, colours (`i % len(colors)`), shapes, annotations, hover texts and the pixel height
  `max(600, y_position * 15)`. This is rendering through a foreign library. The model keeps what they are built
  from: bars with rows, start rows, the final counter, year markers and label values.
- The NaN check at line 125. It cannot fire on sanitised rows, whose dates are always present.
- Average duration (line 331). It is floating-point `mean` and `round`.
- CSV export and the `datetime.now()` file name. This is I/O and a clock.
- MonthlyActivity.ActiveContractsByMonth: on a non-empty frame whose selection has no rows, pandas builds a date
  range from `NaT` bounds, which raises. The model returns `Failure(EmptySelection)` instead of modelling
  pandas' exception. The result is also a Dafny `map`, which has no order, while the source's dict keeps its
  entries in caller order, a repeated category keeping its first place. Only rendering depends on that order
  (trace order, colour index and the first entry whose months are drawn), and it is not modelled.
- `create_active_contracts_chart` draws from the first entry's months. All entries share the grid
  (`MonthlyActivity.ActiveContractsByMonth`), so the model states its markers over `MonthGrid`.
