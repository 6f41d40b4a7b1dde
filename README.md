# Gas-price statistics of token transfers, modelled in Dafny

The repository fetches the ERC-20 transfers of one account, looks up the gas
price of each transfer's transaction, and reports gas-price statistics. It
does this in two programs:

- `src/index.ts` (`main`) pairs every fetched transfer with the gas price
  its transaction lookup returned (`null` when the lookup failed or gave no
  price). It keeps the transfers that have a price. It then folds the maximum,
  the minimum (seeded with the maximum) and the truncating `bigint` average
  over those prices. Module `GasStats` models this pipeline as pure functions
  (`MapEvents`, `ValidEvents`, `GasPricesWei`, `MaxGas`, `MinGas`, `AvgGas`,
  `Run`). Module `Decimal` models the `bigint` → decimal text → `BigInt`
  round trip that the prices make on the way.
- `src/query.ts` reads a `transfers` table and computes three SQL aggregates
  plus the event listing. Module `GasQueries` models each query as a function
  of the table's rows listed newest first:
  - a sliding average computed by a self-join on `ROW_NUMBER()`;
  - a running sum (`ROWS UNBOUNDED PRECEDING`);
  - a per-day sum grouped by `date(timestamp)` and folded into a record;
  - the event listing.

  The per-day record is built by mutating an accumulator inside `reduce`. It
  is therefore a method with a loop (`GetSumByDate`); everything else is a
  function.

Modules `Wrappers` (Option, Result) and `Sequences` (exact sum, maximum,
minimum, subsequence) hold the reference definitions the contracts are
stated with.

Facts about the code that shape the model:

- The sliding-average query is commented as a 7-day average
  (src/query.ts:34, 54), but its join bounds row numbers, not times. Entry i
  covers row i and up to six rows before it in newest-first order: at most 7
  rows, whatever time they span.
- `ROW_NUMBER()` and the running sum are both ordered by `timestamp DESC`, so
  both series run newest first.
- With no priced transfer, `avgGas` divides `0n` by `0n` (src/index.ts:74).
  This throws a RangeError that `main().catch(console.error)` only logs (src/index.ts:93),
  so nothing is written. `AvgGas`, `GasStatsOf` and `Run` return
  `Failure(RangeError)` for this case.
- A failed gas-price lookup keeps the transfer with a `null` price until the
  filter at src/index.ts:69 drops it.

## Model

| member | source | states |
|---|---|---|
| `GasStats.TxGasPrice` | src/index.ts:44-52 | never fails: the price is present exactly when the lookup succeeded and returned a `gasPrice`, and then it is that price |
| `GasStats.MapEvents` | src/index.ts:56-67 | one event per fetched transfer |
| `GasStats.MapEventsAligned` | src/index.ts:56-67 | event i copies transfer i's hash, block, from, to and value; its gas price is `null` exactly when lookup i yielded none, and otherwise is exactly `toString()` of that price, which reads back as the price |
| `GasStats.MapEventsWellFormed` | src/index.ts:65 | every gas price an event carries is decimal text that `BigInt` accepts |
| `GasStats.ValidEvents` | src/index.ts:69 | every kept event has a gas price and comes from the input; no more events than the input; decimal text stays decimal |
| `GasStats.ValidEventsComplete` | src/index.ts:69 | no event with a gas price is dropped |
| `GasStats.ValidEventsConcat` | src/index.ts:69 | the filter works event by event: filtering a concatenation concatenates the filtered parts, so duplicates are kept as often as they occur |
| `GasStats.ValidEventsSingle` | src/index.ts:69 | a single event is kept exactly when its gas price is not `null` |
| `GasStats.ValidEventsCount` | src/index.ts:69 | exactly as many events are kept as carry a gas price |
| `GasStats.ValidEventsSubsequence` | src/index.ts:69 | the kept events are an order-preserving subsequence of the events |
| `GasStats.ValidEventsKeepsPriced` | src/index.ts:69 | a list whose events all carry a gas price passes the filter unchanged |
| `GasStats.ValidEventsIdempotent` | src/index.ts:69 | filtering an already filtered list changes nothing |
| `GasStats.GasPricesWei` | src/index.ts:70 | one parsed price per valid event |
| `GasStats.PricesRoundTrip` | src/index.ts:65-70 | the prices parsed from the valid events are exactly the prices the lookups produced, in transfer order (`toString` then `BigInt` is the identity) |
| `GasStats.FoldMax` | src/index.ts:72 | the fold result is at least the seed and every price, and is the seed or one of the prices |
| `GasStats.FoldMin` | src/index.ts:73 | the fold result is at most the seed and every price, and is the seed or one of the prices |
| `GasStats.FoldSum` | src/index.ts:74 | the fold result is the seed plus the exact sum of the prices |
| `GasStats.MaxGas` | src/index.ts:72 | bounds every price; 0 for no prices; otherwise the largest price |
| `GasStats.MinGas` | src/index.ts:73 | below every price and below `maxGas`; 0 for no prices; otherwise the smallest price |
| `GasStats.AvgGas` | src/index.ts:74 | fails exactly when there are no prices; otherwise the floor of sum / count, between `minGas` and `maxGas` |
| `GasStats.GasStatsOf` | src/index.ts:72-81 | fails exactly when there are no prices; otherwise min, max and avg are exactly the `toString()` texts of the smallest price, the largest price and floor(sum / count) |
| `GasStats.GasStatsOrdered` | src/index.ts:72-81 | read back with `BigInt`, the written avg lies between the written min and max |
| `GasStats.Run` | src/index.ts:54-86 | fails exactly when no lookup produced a price; otherwise writes exactly the valid events, all priced, and the statistics object of the prices the lookups produced |
| `GasStats.RunWritesStats` | src/index.ts:72-86 | when some lookup produced a price, the written min, max and avg are exactly the `toString()` texts of the smallest, the largest and floor(sum / count) of the lookups' prices |
| `Decimal.ToDecimal` | src/index.ts:65 | `toString` of a non-negative `bigint` is non-empty decimal text with no leading zero: it starts with `0` only when it is exactly `"0"` for 0 |
| `Decimal.ParseDecimal` | src/index.ts:70 | `BigInt("")` is 0 and a single digit reads as its value |
| `Decimal.ParseToDecimal` | src/index.ts:65-70 | `BigInt(n.toString()) == n` |
| `Decimal.ToDecimalInjective` | src/index.ts:78-80 | distinct statistics values have distinct decimal texts |
| `GasQueries.Priced` | src/query.ts:41-42 | the filtered rows are no more than the table's rows (exact content: `PricedConcat`, `PricedSingle`, `PricedCount`) |
| `GasQueries.PricedCount` | src/query.ts:41-42 | one filtered row per row with a non-null gas price |
| `GasQueries.PricedConcat` | src/query.ts:41-42 | the filter works row by row: filtering a concatenation concatenates the filtered parts |
| `GasQueries.PricedSingle` | src/query.ts:36-42 | a single row is kept, projected to its timestamp and gas price, exactly when its gas price is not null |
| `GasQueries.PricedSound` | src/query.ts:41-42 | every filtered row is a table row with that gas price and timestamp |
| `GasQueries.PricedComplete` | src/query.ts:41-42 | every table row with a gas price is kept |
| `GasQueries.NullRowIgnored` | src/query.ts:70-71 | inserting a row with a null gas price anywhere leaves the filtered rows, and so every aggregate, unchanged |
| `GasQueries.PricedKeepsOrder` | src/query.ts:36-44 | the filtered rows stay newest first |
| `GasQueries.SlidingQuery` | src/query.ts:45-58 | one result row per filtered row (one group per `t1.row_num`) |
| `GasQueries.JoinGroup` | src/query.ts:47-56 | the group of row i scanned from row j has at most one member per scanned row, and is empty once j is past i (`t2.row_num <= t1.row_num`) |
| `GasQueries.GetSlidingAverage` | src/query.ts:33-61 | exactly one sliding average per row with a non-null gas price |
| `GasQueries.Window` | src/query.ts:53-54 | the window of entry i has min(i + 1, 7) rows |
| `GasQueries.JoinGroupSlice` | src/query.ts:48-54 | the self-join group of row i, scanned over all rows, is the contiguous slice of rows max(0, i - 6)..i |
| `GasQueries.SlidingAverageWindow` | src/query.ts:47-54 | entry i is the exact mean (sum and count) of the gas prices of rows max(0, i - 6)..i, counted by rows |
| `GasQueries.SlidingAverageFirst` | src/query.ts:47-54 | the first entry is the newest row's gas price over a count of 1 |
| `GasQueries.SlidingAverageBounds` | src/query.ts:47-54 | each entry's count is positive and its mean lies between the minimum and the maximum gas price of its window |
| `GasQueries.SlidingAverageOrder` | src/query.ts:40-58 | result row i carries filtered row i's timestamp, so the output is newest first |
| `GasQueries.CumulativeQuery` | src/query.ts:97-100 | one running sum per filtered row |
| `GasQueries.GetCumulativeSum` | src/query.ts:84-105 | exactly one running sum per row with a non-null gas price |
| `GasQueries.CumulativeSumStep` | src/query.ts:98-100 | entry 0 is the newest price and entry i adds price i to entry i - 1 |
| `GasQueries.CumulativeSumMonotone` | src/query.ts:98-100 | the running sum never decreases |
| `GasQueries.CumulativeSumTotal` | src/query.ts:98-100 | the last running sum is the total of all gas prices |
| `GasQueries.SlidingFromCumulative` | src/query.ts:53-54 | a sliding-window sum is entry i of the running sum minus entry i - 7 (or all of it for i < 7) |
| `GasQueries.DayOf` | src/query.ts:66 | the day of a timestamp is the 86400-second UTC day that contains it |
| `GasQueries.OtherDatesSplit` | src/query.ts:72-73 | removing one day's rows zeroes that day's total, keeps every other day's total and the newest-first order, and takes exactly that day's total off the overall total |
| `GasQueries.GroupByDate` | src/query.ts:64-76 | one entry per distinct day among the priced rows, no day twice, each carrying the sum of that day's gas prices |
| `GasQueries.GroupByDatePartition` | src/query.ts:66-73 | the per-day totals add up to the total of all gas prices |
| `GasQueries.GroupByDateDescending` | src/query.ts:74-75 | for newest-first rows the days come out strictly descending |
| `GasQueries.GetSumByDate` | src/query.ts:63-82 | the record has exactly one key per day of a priced row, and its value is the decimal text of that day's gas-price sum |
| `GasQueries.TotalsAgree` | src/query.ts:63-105 | the last running sum, the total gas price and the sum of the per-day totals are equal |
| `GasQueries.GetEvents` | src/query.ts:107-130 | one event per row, null gas prices included; renaming the columns back gives the row again |
| `GasQueries.GetEventsOrder` | src/query.ts:119-120 | events are newest first and keep each row's gas price or its null |

## Left out

- Fetching transfers from the explorer (`fetchTransfers`, src/index.ts:23-42) is network I/O. The transfers are an input. When that fetch fails it returns an empty list, and `Run` on an empty list gives `Failure(RangeError)`.
- The node's transaction lookup (src/index.ts:18-21, 46) is network I/O. Its outcomes are an input sequence aligned with the transfers.
- `Promise.all` fan-out (src/index.ts:56, src/query.ts:139-144) is left out because the concurrency does not affect the results.
- Opening and closing the SQLite database, `db.all`, `writeFile`, `JSON.stringify` and logging are left out as I/O.
- `dotenv` configuration, the startup check and `process.exit` are left out as configuration.
- GetSlidingAverage: returns each average as an exact sum and count. It leaves out SQLite's floating-point `AVG` and the `Math.round` applied to it (src/query.ts:60).
- GetCumulativeSum: returns exact integers. It leaves out SQLite's 64-bit/floating-point `SUM` and the `Math.round` applied to it (src/query.ts:104).
- GetSumByDate: returns a map, so the key insertion order of the JavaScript record is not captured. GroupByDateDescending states the order in which the keys are inserted.
- GetSumByDate: writes the exact decimal text of an unbounded per-day total. It leaves out SQLite's 64-bit `SUM`, which fails with an integer overflow past 2^63, and the JavaScript Number the driver returns, whose `toString()` is inexact above 2^53 and uses exponent notation from 10^21 (src/query.ts:67, 79).
- The tie order of `ROW_NUMBER()` and `ORDER BY timestamp DESC` among equal timestamps is unspecified in SQLite. The row order is an input, sorted newest first where a property needs it.
- The text parsing behind `date(timestamp)` is left out. `DayOf` takes the timestamp as seconds since the Unix epoch and gives the UTC day number.
- src/index.js is a compiled copy of src/index.ts, so it is not modelled separately.
