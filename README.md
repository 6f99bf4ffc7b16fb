# Stock dashboard: client-side data pipeline

This project models, in Dafny, the small part of a stock-screening
dashboard that reshapes server data before it is shown. The rest of the
dashboard is React views. Three pieces are modelled:

- **Screening-result normaliser** (`StockApi`, file `stock_api.dfy`). Each
  record of the "large cap below one-year average price" response gets two
  derived fields:
  - `price_diff = current_close − avg_close_1y`
  - `price_diff_percent = price_diff / avg_close_1y × 100`

  The list is then sorted stably by descending `|price_diff|`. The module
  also holds the display helpers `formatMarketValue`, `formatPriceDiff` and
  `formatPercentage`.
- **Chart-series preparer** (`PriceVolumeChart`, file
  `price_volume_chart.dfy`). It takes a copy of the one-year price/volume
  points and sorts it by trading date. It derives the padded price-axis
  range from the closing prices. It also covers the conversion of traded
  amounts from thousands of yuan to 亿 (10^8 yuan) for the tooltip, and the
  `MM-DD` tick label.
- **Stock-row formatting** (`StockItem`, file `stock_item.dfy`). This covers
  the B/M/K tiers of `formatNumber`, the rising/falling/flat class of a price
  change, and the strict-positive `+` prefix.

Two shared modules support them:

- `Numbers` (`numbers.dfy`) holds `Option`, `Abs`, and the value that
  JavaScript's `toFixed` renders: the magnitude rounded half away from zero
  to a number of decimals.
- `StableSort` (`stable_sort.dfy`) models `Array.prototype.sort` with a
  subtracting comparator: a stable sort ascending by a numeric key. It is
  specified as insertion sort over sequences. It is implemented as an
  in-place insertion sort over an array, proved to produce exactly that
  sequence.

Both sort sites use `StableSort`. The screening list is sorted by the key
`−|price_diff|`. The chart points are sorted by the calendar day of
`trade_date`.

All prices, volumes and amounts are exact `real`s. A formatter returns a
`Label`: a sign prefix, the number its decimal text stands for, and a unit
suffix.

The code divides by `avg_close_1y` unguarded (`src/services/stockApi.ts:78`)
and has no rule for records without an average, so the model requires a
non-zero average.

## Model

| member | source | states |
|---|---|---|
| `Numbers.ToFixed` | src/services/stockApi.ts:154 | the value `toFixed(d)` shows is within half a unit of the d-th decimal of the input, and keeps its sign |
| `Numbers.ToFixedRounds` | src/services/stockApi.ts:154 | the value `toFixed(d)` shows satisfies `RoundsTo`: it has at most d decimals, is within half a unit of the d-th decimal of the input, and a halfway value goes away from zero |
| `Numbers.ToFixedUnique` | src/services/stockApi.ts:154 | `RoundsTo` has exactly one solution: any value with at most d decimals, within half a unit and rounding ties away from zero is the value `toFixed(d)` shows |
| `Numbers.ToFixedExact` | src/components/StockPriceVolumeChart.tsx:25 | a value that already has at most d decimals is shown unchanged |
| `Numbers.ToFixedOdd` | src/services/stockApi.ts:154 | rounding is symmetric about zero, because `toFixed` rounds the magnitude |
| `StableSort.SortBySorted` | src/services/stockApi.ts:88 | the sort's output is non-decreasing by the key |
| `StableSort.SortByPermutes` | src/services/stockApi.ts:88 | the sort's output is a permutation of its input (same multiset) |
| `StableSort.SortByStable` | src/services/stockApi.ts:88 | for every key value, the elements with that key appear in the output in their input order (stability) |
| `StableSort.StrictlySortedUnique` | src/components/StockPriceVolumeChart.tsx:34-37 | two sequences with the same elements, both sorted with strictly increasing keys, are equal |
| `StableSort.SortInPlace` | src/components/StockPriceVolumeChart.tsx:34-37 | the in-place array sort leaves the array equal to the stable sort of its old contents |
| `StableSort.InsertInPlace` | src/services/stockApi.ts:88 | moving one element into a sorted suffix by shifting smaller keys left yields exactly the stable insertion of that element |
| `StockApi.Derive` | src/services/stockApi.ts:76-85 | every original field is carried over unchanged; `current_close == avg_close_1y + price_diff`; `price_diff_percent × avg_close_1y == price_diff × 100`; requires a non-zero average |
| `StockApi.DeriveAll` | src/services/stockApi.ts:76-85 | the map keeps the length, and record i carries input record i's fields with well-formed derived fields |
| `StockApi.ProcessScreening` | src/services/stockApi.ts:76-90 | the output has the input's length; it is a permutation of the derived records; each output record is well derived from an input record; it is non-increasing by `abs(price_diff)`; records with equal `abs(price_diff)` keep their input order |
| `StockApi.RankingExample` | src/services/stockApi.ts:76-88 | records at −10 (−10%) and +30 (+60%) from their averages are ranked +30 first |
| `StockApi.FormatMarketValue` | src/services/stockApi.ts:144-147 | market value in units of 10 000 yuan is shown in 亿 rounded to a whole number (`RoundsTo` with 0 decimals; within 5 000 of the input once scaled back), suffix `亿`, no sign |
| `StockApi.MarketValueWhole` | src/services/stockApi.ts:144-147 | a whole number of 亿 is shown exactly |
| `StockApi.SignedTwoDecimals` | src/services/stockApi.ts:152-163 | `+` appears exactly when the value is ≥ 0 (zero included); the amount is the value rounded to two decimals (`RoundsTo` with 2 decimals, hence within 0.005); the shown amount has the sign the prefix announces, or is 0 |
| `StockApi.FormatPriceDiff` | src/services/stockApi.ts:152-155 | `+` exactly when diff ≥ 0, no suffix, the diff rounded to two decimals (`RoundsTo`) |
| `StockApi.FormatPercentage` | src/services/stockApi.ts:160-163 | `+` exactly when percent ≥ 0, suffix `%`, the percentage rounded to two decimals (`RoundsTo`) |
| `PriceVolumeChart.ParseDate` | src/components/StockPriceVolumeChart.tsx:36 | a parsed trade date is a valid calendar date and its string is `YYYY-MM-DD` shaped |
| `PriceVolumeChart.ParseFormat` | src/components/StockPriceVolumeChart.tsx:36 | parsing the `YYYY-MM-DD` text of a date gives back that date |
| `PriceVolumeChart.FormatParse` | src/components/StockPriceVolumeChart.tsx:36 | a string that parses is the text of its date, so distinct trade-date strings are distinct days |
| `PriceVolumeChart.DayOrdinalOrder` | src/components/StockPriceVolumeChart.tsx:35-36 | the sort key orders valid dates exactly as the calendar does, and equal keys mean equal dates |
| `PriceVolumeChart.SortByTradeDate` | src/components/StockPriceVolumeChart.tsx:34-37 | the sorted copy is a permutation of the input, and no later point comes before an earlier one by calendar date |
| `PriceVolumeChart.DistinctDaysPermute` | src/components/StockPriceVolumeChart.tsx:34-37 | "no two points share a day" is kept by any reordering |
| `PriceVolumeChart.SortOrderIndependent` | src/components/StockPriceVolumeChart.tsx:34-37 | when no two points share a day, every delivery order of the same points sorts to the same series |
| `PriceVolumeChart.MinCloseIsLeast` | src/components/StockPriceVolumeChart.tsx:43 | the minimum close is a close of the series and no close is below it |
| `PriceVolumeChart.MaxCloseIsGreatest` | src/components/StockPriceVolumeChart.tsx:44 | the maximum close is a close of the series and no close is above it |
| `PriceVolumeChart.ComputePriceDomain` | src/components/StockPriceVolumeChart.tsx:40-48 | the loop computes `DomainOf` of the series, the padded range of its closes; no domain exactly when the series is empty |
| `PriceVolumeChart.DomainContains` | src/components/StockPriceVolumeChart.tsx:42-47 | every close lies strictly inside `[low, high]` |
| `PriceVolumeChart.DomainShape` | src/components/StockPriceVolumeChart.tsx:45-47 | `high − low > 0` even for a flat series; the padding is equal on both sides; the width is the close range plus 10% of the spread |
| `PriceVolumeChart.DomainOfPermutation` | src/components/StockPriceVolumeChart.tsx:40-48 | the domain depends only on which points there are, so computing it over the sorted copy gives the input's domain |
| `PriceVolumeChart.FlatSeriesDomain` | src/components/StockPriceVolumeChart.tsx:45 | a series whose every close is 100 gets the domain [99.95, 100.05] |
| `PriceVolumeChart.PrepareChart` | src/components/StockPriceVolumeChart.tsx:34-48 | the chart's sorted data is the stable date sort of the input, and its domain is the input's domain (none exactly when empty) |
| `PriceVolumeChart.FormatAmountToYi` | src/components/StockPriceVolumeChart.tsx:22-26 | the shown 亿 amount is the input divided by 100 000 rounded to two decimals (`RoundsTo`), so times 100 000 it is within 500 thousand yuan of the input |
| `PriceVolumeChart.FormatAmountToYiExamples` | src/components/StockPriceVolumeChart.tsx:22-26 | 100 000 (thousand yuan) is shown as 1.00 and 0 as 0.00 |
| `PriceVolumeChart.TooltipFor` | src/components/StockPriceVolumeChart.tsx:114-125 | only the volume series shows an amount, and that amount is `FormatAmountToYi` of the point's amount, or of 0 when it has none; other series pass their value and name through |
| `PriceVolumeChart.TooltipWithoutAmount` | src/components/StockPriceVolumeChart.tsx:116-118 | a hovered point without an amount shows 0 亿 |
| `PriceVolumeChart.TickLabel` | src/components/StockPriceVolumeChart.tsx:70 | the tick is the date with its first five characters removed, or empty for a shorter string |
| `PriceVolumeChart.TickLabelOfDate` | src/components/StockPriceVolumeChart.tsx:70 | for a valid trade date the tick is `MM-DD`: five characters, a dash in the middle, giving back the month and day |
| `StockItem.FormatNumber` | src/components/StockItem.tsx:10-19 | suffix B exactly when num ≥ 1e9, M exactly when 1e6 ≤ num < 1e9, K exactly when 1e3 ≤ num < 1e6, none exactly when num < 1000 (negatives included), and then the value is unscaled; in a suffixed tier the amount is num divided by the tier's scale, rounded to one decimal (`RoundsTo`) |
| `StockItem.FormatNumberScaled` | src/components/StockItem.tsx:11-16 | in every suffixed tier the shown amount has one decimal, and in every tier the shown amount times the tier's scale is within half a tenth of the scale from the input |
| `StockItem.FormatNumberTierBounds` | src/components/StockItem.tsx:10-19 | the scaled value of a suffixed tier is ≥ 1, and < 1000 in the K and M tiers; after rounding it is ≥ 1, and ≤ 1000 in the K and M tiers |
| `StockItem.FormatNumberRoundsUpToThousand` | src/components/StockItem.tsx:13-16 | 999 960 is shown as 1000.0K, because the tier is chosen before rounding |
| `StockItem.GetChangeClass` | src/components/StockItem.tsx:21-25 | positive exactly when change > 0, negative exactly when change < 0, neutral exactly when change = 0 |
| `StockItem.ChangePrefix` | src/components/StockItem.tsx:46-49 | `+` exactly when the value is > 0, so zero is unsigned |
| `StockItem.ChangeText` | src/components/StockItem.tsx:45-47 | the change text has `+` exactly when the change is > 0 and no prefix exactly when it is ≤ 0 (zero is unsigned), and shows the change rounded to two decimals (`RoundsTo`) |
| `StockItem.ChangePercentText` | src/components/StockItem.tsx:48-50 | the percent text has `+` exactly when the change percent is > 0 and no prefix exactly when it is ≤ 0, the change percent rounded to two decimals (`RoundsTo`), then `%` |
| `StockItem.PrefixMatchesClass` | src/components/StockItem.tsx:44-47 | the `+` is shown exactly on rows classed positive |
| `StockItem.PrefixRulesDiffer` | src/components/StockItem.tsx:46 | the stock-row prefix and the screening formatters' prefix agree on every value except zero |

## Left out

- Network I/O is left out: `fetch`, the `response.ok` check, JSON decoding,
  `console.error` and rethrowing. `fetchPriceVolume1Y` and
  `fetchWeeklyVolumeSurge` only return the decoded `data` array, so they
  have nothing to model beyond the data types.
- StockApi.Derive: requires `avg_close_1y != 0`. The source has no guard. In
  JavaScript a zero average gives a percentage of ±Infinity, or NaN when
  the price also equals the average. IEEE values are not modelled. The
  sort does not read the percentage, so only that field would differ.
- StockApi.ProcessScreening: requires every average to be non-zero, for the
  same reason.
- PriceVolumeChart.SortByTradeDate: requires every `trade_date` to be a valid
  `YYYY-MM-DD` calendar date. For other strings `new Date` gives either an
  invalid date, making the comparator return NaN, or a date the engine
  reads in a format of its own choosing, so the resulting order depends on
  the JavaScript engine.
- PriceVolumeChart.PrepareChart: requires valid trade dates, for the same
  reason.
- PriceVolumeChart.TickLabel: counts characters as Unicode scalar values,
  while `slice(5)` counts UTF-16 code units. The two differ only on
  characters outside the Basic Multilingual Plane, never on a date.
- The comparator's `getTime()` values are milliseconds since 1970. They are
  replaced by an ordinal per day that orders valid dates the same way. Only
  the comparator's sign matters to the sort.
- The decimal text that `toFixed` and `toString` produce is not modelled,
  only the number it stands for. This includes a negative value that rounds
  to zero showing as `-0.00`, and exponent notation at 10^21 and above.
- IEEE-754 floating-point rounding is not modelled. All arithmetic is exact
  real arithmetic. `toFixed` is modelled as rounding the exact value, so a
  halfway case goes away from zero; in JavaScript the binary double nearest
  to a decimal such as 1.005 may lie just below the halfway point and round
  down instead.
- The sort is specified as a stable insertion sort. The engine's algorithm
  differs, but a stable sort by a key has only one possible result.
- `[...data]` copies before sorting. In the model the input is a sequence
  value, so the caller's series cannot change, and the copy is a fresh
  array.
- The chart's Recharts layout is not modelled: axes, lines, bars, margins
  and the `minTickGap` spacing.
- The tooltip's label text around the amount is not modelled, nor the
  parentheses around the change percent. Both are markup.
- `¥{stock.price.toFixed(2)}` and the other plain `toFixed` renderings in
  the row are not modelled separately. They are `ToFixed` applied directly.
- The React screening views are left out: their loading/error/modal state,
  the stale-response race between overlapping requests, and their local
  formatters. `formatPercent` repeats `formatPercentage`, and the sector
  card's `formatNumber` repeats the stock row's `formatNumber`.
  `formatLargeNumber` in the ETF volume-surge view is a different
  formatter: it has only M and K tiers, with no B tier, and shows two
  decimals. It is left out as a one-line helper of a view.
- Screening criteria are left out: low-PE, volume surge, reversal and
  portfolio scoring are computed by the remote service.
