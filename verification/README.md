# Industry Insights Dashboard — verified model of the analysis core

The dashboard downloads closing prices for a set of sector indices and
benchmarks. It then does three things:

- It rescales every series to its value at the start of a chosen period.
- It detects moving-average crossovers per series. A *Golden Cross* is where
  the short average rises above the long one. A *Dead Cross* is where it
  falls back to or below it.
- It reports the latest crossover per series inside the period.

This project models those three steps in Dafny and proves what they
guarantee.

- `prices.dfy` (module `Prices`) defines the price table. It has a strictly
  increasing date index and one complete column of `real` prices per
  instrument, with distinct names. Dates are abstract integers.
- `normalizer.dfy` (module `Normalizer`) models `normalize_to_start_period`.
  It is a pure function: label slicing from the start date, then division
  by the first kept row.
- `crossovers.dfy` (module `Crossovers`) models `create_crossovers_dataframe`.
  - Specification functions give the trailing moving average (`MovingAverage`,
    an exact mean), the 0/1 signal (`Signal`, `SignalSeries`), the records a
    signal series yields (`EventsUpTo`), the records of one column
    (`ColumnEvents`) and the records of the whole table (`TableEvents`).
  - The imperative method `CreateCrossovers` loops over the columns and
    appends each column's records. Its loop body is split in two methods.
    `DetectColumn` fills a zero signal array and sets it to 1 under the
    `short > long` mask. `EmitRecords` walks that array and appends a record
    wherever the first difference is +1 or -1.
  - The methods are proved equal to the specification functions. Lemmas
    prove what those functions promise. The record lemmas hold for any 0/1
    signal series that starts at 0 (every `SignalSeries` does), so they apply
    to every column and every pair of windows. The characterisation of the
    records by signal changes needs only the values 0 and 1.
- `selector.dfy` (module `Selector`) models `filter_last_cross_in_period` as
  a function. It applies an inclusive date filter, sorts by date and keeps
  the last row per stock. Lemmas prove what the result means.

The model follows what the code does, including these points where a
reader might expect otherwise:

- Warm-up rows, where an average is still undefined, count as signal 0.
  They are not skipped. So a Golden Cross can be reported at the first row
  where both averages exist.
- The normalizer has no end date. It keeps every row from the start date to
  the end of the table.
- A period with no row at or after the start date is not a "date out of
  range" error. It is the failure of positional indexing on an empty frame
  (`Normalizer.NoRowInPeriod`).
- Selecting from no records at all fails. The frame built from an empty
  list has no `Date` column (`Selector.MissingDateColumn`). It is not an
  empty result.

## Model

| member | source | states |
|---|---|---|
| `Normalizer.FirstKept` | main.py:61 | The position where label slicing from `start` begins: every earlier date is before `start`, every later one is at or after it |
| `Normalizer.Normalize` | main.py:59-63 | Fails exactly when no date is at or after `start`; otherwise keeps exactly the dates at or after `start`, as a suffix of the index in the original order, with the same columns under the same names, and the result is again a valid table |
| `Normalizer.NormalizedStartsAtOne` | main.py:62 | The first normalised row is exactly 1 in every column |
| `Normalizer.NormalizedTimesReferenceIsRaw` | main.py:61-62 | Row `i` of the result is row `k + i` of the input, where `k` is the first kept row, and every normalised value times the raw price of row `k` gives back the raw price of the same date; row `k` need not be dated `start` |
| `Crossovers.MovingAverageWithinWindow` | main.py:106-107 | Where defined (row `i` with `i >= w-1`), the trailing average of `w` prices lies between the smallest and largest price of its window |
| `Crossovers.SignalIffShortAboveLong` | main.py:106-109 | The signal is 1 exactly when both averages are defined (`i >= w-1` for each window) and, without division, the long window times the short sum exceeds the short window times the long sum; warm-up rows and equal averages give 0 |
| `Crossovers.SignalSeries` | main.py:108-109 | The signal series has one value per row, every value is 0 or 1, and the first is 0 |
| `Crossovers.SignalStartsLow` | main.py:106-109 | The signal at the first row is always 0, whatever the windows |
| `Crossovers.MaskedSignal` | main.py:108-109 | A series of zeros set to 1 exactly where the short rolling mean is above the long one is the signal series |
| `Crossovers.EventIffSignalChange` | main.py:110-116 | For any 0/1 signal series, a record is emitted at row `i >= 1` exactly when the signal differs from row `i-1`, dated at row `i`: Golden Cross when the new value is 1, Dead Cross otherwise; nothing is emitted at row 0 |
| `Crossovers.EventsNameTheirColumn` | main.py:114-116 | Every record of a column carries that column's name |
| `Crossovers.EventDatesIncrease` | main.py:112-116 | On a strictly increasing index, the records of one column have strictly increasing dates |
| `Crossovers.LastEventTracksSignal` | main.py:108-116 | For a 0/1 signal starting at 0, the last record so far is a Golden Cross when the current signal is 1 and a Dead Cross when it is 0; with no record yet the signal is 0 |
| `Crossovers.EventsAlternate` | main.py:108-116 | Within a column the kinds alternate and the first record is a Golden Cross |
| `Crossovers.FlatSignalHasNoEvents` | main.py:110-116 | A signal that is 0 on every row yields no records |
| `Crossovers.NoEventsForDegenerateWindows` | main.py:105-116 | Equal windows, or a window longer than the series, yield no records for a column |
| `Crossovers.TracedSignal` | main.py:106-109 | Prices 10,10,10,12,12,12,9,9,9 with windows 2 and 3 give the signal 0,0,0,1,1,0,0,0,0 (rows 0-1 are warm-up, 12 = 12 at row 5 gives 0) |
| `Crossovers.TracedRecords` | main.py:110-116 | The signal 0,0,0,1,1,0,0,0,0 yields exactly a Golden Cross at row 3 and a Dead Cross at row 5 |
| `Crossovers.TracedScenario` | main.py:103-118 | The same prices yield exactly a Golden Cross at row 3 and a Dead Cross at row 5 |
| `Crossovers.TableEventFromColumn` | main.py:105-116 | Every record of the table comes from one of its columns and names it |
| `Crossovers.TableEventsPerStockIncrease` | main.py:104-118 | Over the whole table with distinct column names, the records of one stock have strictly increasing dates |
| `Crossovers.EmitRecords` | main.py:110-116 | Walking the first difference of a signal array appends exactly the records of that signal, in row order |
| `Crossovers.DetectColumn` | main.py:106-116 | One column's pass (rolling means, masked 0/1 signal, first difference, records for +1 and -1) returns exactly that column's records |
| `Crossovers.CreateCrossovers` | main.py:103-118 | Returns exactly the records of all columns, column after column, in chronological order within each |
| `Selector.FilterPeriod` | main.py:125 | Keeps exactly the records with `start <= date <= end` |
| `Selector.InsertKeepsOrder` | main.py:126 | Inserting a record into a date-sorted sequence keeps it date-sorted and adds exactly that record |
| `Selector.SortByDate` | main.py:126 | The result is in non-decreasing date order and is a permutation of the input |
| `Selector.LastPerStockSubset` | main.py:126 | Grouping by stock and keeping each group's last row only keeps rows of its input |
| `Selector.LastPerStockDistinct` | main.py:126 | It keeps at most one row per stock |
| `Selector.LastPerStockLatest` | main.py:126 | On date-sorted rows, the kept row of a stock has the greatest date of that stock |
| `Selector.LastPerStockComplete` | main.py:126 | Every stock of the input keeps a row |
| `Selector.LastPerStockSorted` | main.py:126 | Date-sorted rows stay date-sorted |
| `Selector.SelectLatest` | main.py:123-126 | Fails exactly when there are no records at all |
| `Selector.SelectedAreQualifyingInputs` | main.py:125-126 | Every selected record is an input record dated within `[start, end]` |
| `Selector.SelectedStocksDistinct` | main.py:126 | At most one record per stock is selected |
| `Selector.SelectedIsLatest` | main.py:125-126 | The selected record of a stock is dated no earlier than any of its records within `[start, end]` |
| `Selector.SelectedStocksAreQualifyingStocks` | main.py:125-126 | A stock appears in the selection if and only if it has a record within `[start, end]` |
| `Selector.SelectedSortedByDate` | main.py:126 | The selection is in non-decreasing date order |
| `Selector.SingleDayPeriod` | main.py:125-126 | A one-day period holding exactly one record on that date selects exactly that record |
| `Selector.SameStockRecordsHaveDistinctDates` | main.py:112-116 | When each stock's records have increasing dates, two different records of one stock never share a date |
| `Selector.DetectorRecordsHaveStrictLatest` | main.py:103-126 | On the detector's records, the selected record of a stock is strictly later than every other record of that stock within the period |

## Left out

- Streamlit configuration, sidebar inputs, checkboxes and page output (main.py:8, 35-38, 67-81, 84-87, 131-132): user interface.
- matplotlib plotting (main.py:88-100, 134-158): presentation. Its recomputed moving averages (main.py:140-141) are the same as `Crossovers.RollingMean`.
- `fetch_data`, the yfinance download and the Streamlit cache (main.py:47-56): network I/O and caching. Its `dropna(axis=1)` is why the model's columns are complete and aligned (`Prices.ValidTable`).
- `datetime.today()`, the `timedelta` arithmetic and the five-year lookback (main.py:40-44): wall-clock plumbing. Dates are abstract integers and the period bounds are parameters.
- The in-place `tz_localize` of the `Date` column (main.py:124): timezone plumbing. It does not change the order of abstract dates.
- IEEE rounding in the rolling mean and in the division: prices are exact `real`s and averages are exact means.
- Normalizer.Normalize: a zero reference price is excluded by the precondition `NonzeroReference`. pandas would produce inf or NaN there instead of an error.
- Selector.SelectLatest: records of different stocks that share a date come out in the order of a stable sort. The source's `sort_values` is not stable, so their order is unspecified there. The lemmas therefore claim only non-decreasing date order. Within one stock no two detector records share a date (`Selector.DetectorRecordsHaveStrictLatest`).
- Crossovers.CreateCrossovers: the per-column body is a separate method, `Crossovers.DetectColumn`, which hands the signal to `Crossovers.EmitRecords`. Records are appended to the result in the same order as the source appends them one by one.
