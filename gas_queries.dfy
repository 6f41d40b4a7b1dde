/** The queries of src/query.ts over the `transfers` table, as functions of
    the table's rows listed newest first (`ORDER BY timestamp DESC`). Ties
    between equal timestamps are ordered arbitrarily by the database, so the
    row order is an input here rather than something computed. */
module GasQueries {
  import opened Wrappers
  import opened Decimal
  import opened Sequences

  /** A row of the `transfers` table; `timestamp` counts seconds since the
      Unix epoch, UTC. */
  datatype Row = Row(txHash: string, blockNumber: string, fromAddress: string, toAddress: string,
                     amount: string, gasPrice: Option<nat>, timestamp: int)

  /** One element of `getEvents`'s result, with the columns renamed. */
  datatype Event = Event(txHash: string, blockNumber: string, from: string, to: string,
                         amount: string, gasPrice: Option<nat>, timeStamp: int)

  /** Newest first. */
  predicate SortedDesc(rows: seq<Row>) {
    forall i, j :: 0 <= i < j < |rows| ==> rows[i].timestamp >= rows[j].timestamp
  }

  // ---------------------------------------------------------------------------
  // WHERE gas_price IS NOT NULL

  /** A row that passed `WHERE gas_price IS NOT NULL`, with the two columns the
      aggregates read. */
  datatype PricedRow = PricedRow(timestamp: int, gasPrice: nat)

  predicate PricedSortedDesc(ps: seq<PricedRow>) {
    forall i, j :: 0 <= i < j < |ps| ==> ps[i].timestamp >= ps[j].timestamp
  }

  /** The rows with a gas price, in table order. */
  function Priced(rows: seq<Row>): (ps: seq<PricedRow>)
    ensures |ps| <= |rows|
  {
    if rows == [] then []
    else
      (if rows[0].gasPrice.Some? then [PricedRow(rows[0].timestamp, rows[0].gasPrice.value)] else [])
      + Priced(rows[1..])
  }

  /** The number of rows whose gas price is not null. */
  function CountPriced(rows: seq<Row>): nat {
    if rows == [] then 0
    else (if rows[0].gasPrice.Some? then 1 else 0) + CountPriced(rows[1..])
  }

  /** One filtered row per row with a gas price. */
  lemma {:induction false} PricedCount(rows: seq<Row>)
    ensures |Priced(rows)| == CountPriced(rows)
  {
    if rows != [] {
      PricedCount(rows[1..]);
    }
  }

  /** The filter works row by row: filtering a concatenation concatenates
      the filtered parts. With `PricedSingle` this fixes `Priced`
      completely: the priced rows, projected, in order, each once. */
  lemma {:induction false} PricedConcat(a: seq<Row>, b: seq<Row>)
    ensures Priced(a + b) == Priced(a) + Priced(b)
  {
    if a == [] {
      assert a + b == b;
    } else {
      var head := Priced([a[0]]);
      calc {
        Priced(a + b);
        { assert a + b == [a[0]] + (a[1..] + b); }
        Priced([a[0]] + (a[1..] + b));
        { PricedCons(a[0], a[1..] + b); }
        head + Priced(a[1..] + b);
        { PricedConcat(a[1..], b); }
        head + (Priced(a[1..]) + Priced(b));
        (head + Priced(a[1..])) + Priced(b);
        { PricedCons(a[0], a[1..]); assert a == [a[0]] + a[1..]; }
        Priced(a) + Priced(b);
      }
    }
  }

  lemma PricedCons(r: Row, rest: seq<Row>)
    ensures Priced([r] + rest) == Priced([r]) + Priced(rest)
  {
    assert ([r] + rest)[1..] == rest;
    assert [r][1..] == [];
  }

  /** A single row is kept, projected, exactly when its gas price is not null. */
  lemma PricedSingle(r: Row)
    ensures Priced([r]) == if r.gasPrice.Some? then [PricedRow(r.timestamp, r.gasPrice.value)] else []
  {
    assert [r][1..] == [];
  }

  /** Every filtered row is a row of the table with a gas price. */
  lemma {:induction false} PricedSound(rows: seq<Row>, k: nat)
    requires k < |Priced(rows)|
    ensures exists i :: 0 <= i < |rows| && rows[i].gasPrice == Some(Priced(rows)[k].gasPrice)
                                        && rows[i].timestamp == Priced(rows)[k].timestamp
  {
    var rest := Priced(rows[1..]);
    if rows[0].gasPrice.Some? && k == 0 {
      assert rows[0].gasPrice == Some(Priced(rows)[0].gasPrice);
    } else {
      var k' := if rows[0].gasPrice.Some? then k - 1 else k;
      assert Priced(rows)[k] == rest[k'];
      PricedSound(rows[1..], k');
      var i :| 0 <= i < |rows[1..]| && rows[1..][i].gasPrice == Some(rest[k'].gasPrice)
                                    && rows[1..][i].timestamp == rest[k'].timestamp;
      assert rows[i + 1] == rows[1..][i];
    }
  }

  /** The `gas_price` column of the filtered rows. */
  function Prices(ps: seq<PricedRow>): (p: seq<nat>)
    ensures |p| == |ps|
  {
    seq(|ps|, i requires 0 <= i < |ps| => ps[i].gasPrice)
  }

  /** Every row with a gas price is kept. */
  lemma {:induction false} PricedComplete(rows: seq<Row>, i: nat)
    requires i < |rows| && rows[i].gasPrice.Some?
    ensures PricedRow(rows[i].timestamp, rows[i].gasPrice.value) in Priced(rows)
  {
    if i > 0 {
      PricedComplete(rows[1..], i - 1);
    }
  }

  /** A row whose gas price is null contributes nothing to any aggregate:
      every aggregate below reads the table only through `Priced`. */
  lemma {:induction false} NullRowIgnored(a: seq<Row>, r: Row, b: seq<Row>)
    requires r.gasPrice.None?
    ensures Priced(a + [r] + b) == Priced(a + b)
  {
    if a == [] {
      assert a + [r] + b == [r] + b;
      assert ([r] + b)[1..] == b;
      assert a + b == b;
    } else {
      NullRowIgnored(a[1..], r, b);
      assert (a + [r] + b)[1..] == a[1..] + [r] + b;
      assert (a + b)[1..] == a[1..] + b;
    }
  }

  /** Filtering keeps the newest-first order. */
  lemma {:induction false} PricedKeepsOrder(rows: seq<Row>)
    requires SortedDesc(rows)
    ensures PricedSortedDesc(Priced(rows))
  {
    if rows != [] {
      PricedKeepsOrder(rows[1..]);
      var rest := Priced(rows[1..]);
      if rows[0].gasPrice.Some? {
        var ps := [PricedRow(rows[0].timestamp, rows[0].gasPrice.value)] + rest;
        forall i, j | 0 <= i < j < |ps| ensures ps[i].timestamp >= ps[j].timestamp {
          if i == 0 {
            assert ps[j] == rest[j - 1];
            PricedSound(rows[1..], j - 1);
            var k :| 0 <= k < |rows[1..]| && rows[1..][k].timestamp == rest[j - 1].timestamp;
            assert rows[1..][k] == rows[k + 1];
          } else {
            assert ps[i] == rest[i - 1] && ps[j] == rest[j - 1];
          }
        }
      }
    }
  }

  // ---------------------------------------------------------------------------
  // getSlidingAverage

  /** How many rows, counting the current one, the self-join's window covers:
      `t2.row_num > t1.row_num - 7`. */
  const WindowRows: nat := 7

  /** `AVG` and `COUNT` of one join group, kept exact as a sum and a count
      (the mean is sum / count). */
  datatype Mean = Mean(sum: nat, count: nat)

  /** The join group of row `i`: the aggregate over the rows `j..` of
      `ordered_transfers` that satisfy the join condition with row `i`.
      `ROW_NUMBER()` counts from 1, so row i has number i + 1. */
  function JoinGroup(p: seq<nat>, i: nat, j: nat): (m: Mean)
    requires i < |p| && j <= |p|
    ensures m.count <= |p| - j
    ensures j > i ==> m == Mean(0, 0)
    decreases |p| - j
  {
    if j == |p| then Mean(0, 0)
    else
      var rest := JoinGroup(p, i, j + 1);
      var rowNum1, rowNum2 := i + 1, j + 1;
      if rowNum2 <= rowNum1 && rowNum2 > rowNum1 - WindowRows then Mean(p[j] + rest.sum, rest.count + 1)
      else rest
  }

  /** One result row of the sliding-average query. */
  datatype SlidingRow = SlidingRow(timestamp: int, slidingAvg: Mean)

  /** The sliding-average query: one group per row of `ordered_transfers`,
      in row-number order. */
  function SlidingQuery(ps: seq<PricedRow>): (r: seq<SlidingRow>)
    ensures |r| == |ps|
  {
    var p := Prices(ps);
    seq(|ps|, i requires 0 <= i < |ps| => SlidingRow(ps[i].timestamp, JoinGroup(p, i, 0)))
  }

  /** `getSlidingAverage`: the `sliding_avg` column of the query. */
  function GetSlidingAverage(rows: seq<Row>): (avgs: seq<Mean>)
    ensures |avgs| == |Priced(rows)| == CountPriced(rows)
  {
    PricedCount(rows);
    var q := SlidingQuery(Priced(rows));
    seq(|q|, i requires 0 <= i < |q| => q[i].slidingAvg)
  }

  function WindowStart(i: nat): nat {
    if i >= WindowRows - 1 then i - (WindowRows - 1) else 0
  }

  /** The rows of entry i's window: row i and the up to six rows before it,
      which are the newer ones. */
  function Window(p: seq<nat>, i: nat): (w: seq<nat>)
    requires i < |p|
    ensures |w| == if i + 1 < WindowRows then i + 1 else WindowRows
  {
    p[WindowStart(i)..i + 1]
  }

  function Max(a: nat, b: nat): nat {
    if a >= b then a else b
  }

  /** The join group scanned from row j on is the contiguous slice of the
      window that lies at or after j. */
  lemma {:induction false} JoinGroupSlice(p: seq<nat>, i: nat, j: nat)
    requires i < |p| && j <= |p|
    ensures var lo, hi := Max(j, WindowStart(i)), Max(j, i + 1);
      lo <= hi <= |p| && JoinGroup(p, i, j) == Mean(Sum(p[lo..hi]), hi - lo)
    decreases |p| - j
  {
    if j < |p| {
      JoinGroupSlice(p, i, j + 1);
      var lo, hi := Max(j, WindowStart(i)), Max(j, i + 1);
      if WindowStart(i) <= j <= i {
        assert p[lo..hi][1..] == p[j + 1..hi];
      }
    }
  }

  /** Entry i of the sliding average is the mean of the window of
      min(i + 1, 7) rows ending at row i: a window counted in rows, not days. */
  lemma SlidingAverageWindow(rows: seq<Row>, i: nat)
    requires i < |Priced(rows)|
    ensures var p := Prices(Priced(rows));
      var w := Window(p, i);
      GetSlidingAverage(rows)[i] == Mean(Sum(w), |w|)
  {
    JoinGroupSlice(Prices(Priced(rows)), i, 0);
  }

  /** The first entry is the newest row's own gas price. */
  lemma SlidingAverageFirst(rows: seq<Row>)
    requires |Priced(rows)| > 0
    ensures GetSlidingAverage(rows)[0] == Mean(Priced(rows)[0].gasPrice, 1)
  {
    var p := Prices(Priced(rows));
    SlidingAverageWindow(rows, 0);
    assert Window(p, 0) == [p[0]];
    assert Window(p, 0)[1..] == [];
  }

  /** Every sliding average lies between the smallest and the largest gas
      price of its window. */
  lemma SlidingAverageBounds(rows: seq<Row>, i: nat)
    requires i < |Priced(rows)|
    ensures var p := Prices(Priced(rows));
      var w := Window(p, i);
      var m := GetSlidingAverage(rows)[i];
      m.count > 0 && SeqMin(w) * m.count <= m.sum <= SeqMax(w) * m.count
  {
    var p := Prices(Priced(rows));
    var w := Window(p, i);
    SlidingAverageWindow(rows, i);
    SumBounds(w, SeqMin(w), SeqMax(w));
  }

  /** The result rows carry the timestamps of the filtered rows, in order,
      so the output is newest first. */
  lemma SlidingAverageOrder(rows: seq<Row>)
    requires SortedDesc(rows)
    ensures var q := SlidingQuery(Priced(rows));
      (forall i :: 0 <= i < |q| ==> q[i].timestamp == Priced(rows)[i].timestamp) &&
      (forall i, j :: 0 <= i < j < |q| ==> q[i].timestamp >= q[j].timestamp)
  {
    PricedKeepsOrder(rows);
  }

  // ---------------------------------------------------------------------------
  // getCumulativeSum

  /** `SUM(gas_price) OVER (ORDER BY timestamp DESC ROWS UNBOUNDED PRECEDING)`:
      entry i sums rows 0..i. */
  function CumulativeQuery(p: seq<nat>): (c: seq<nat>)
    ensures |c| == |p|
  {
    seq(|p|, i requires 0 <= i < |p| => Sum(p[..i + 1]))
  }

  /** `getCumulativeSum`. */
  function GetCumulativeSum(rows: seq<Row>): (c: seq<nat>)
    ensures |c| == |Priced(rows)| == CountPriced(rows)
  {
    PricedCount(rows);
    CumulativeQuery(Prices(Priced(rows)))
  }

  /** The running sum starts at the newest price and adds one price per row. */
  lemma CumulativeSumStep(p: seq<nat>, i: nat)
    requires i < |p|
    ensures CumulativeQuery(p)[i] == (if i == 0 then 0 else CumulativeQuery(p)[i - 1]) + p[i]
  {
    PrefixSumStep(p, i);
    if i == 0 {
      assert p[..0] == [];
    }
  }

  /** The running sum never decreases. */
  lemma {:induction false} CumulativeSumMonotone(p: seq<nat>, i: nat, j: nat)
    requires i <= j < |p|
    ensures CumulativeQuery(p)[i] <= CumulativeQuery(p)[j]
    decreases j - i
  {
    if i < j {
      CumulativeSumMonotone(p, i, j - 1);
      CumulativeSumStep(p, j);
    }
  }

  /** The last running sum is the total of all gas prices. */
  lemma CumulativeSumTotal(p: seq<nat>)
    requires |p| > 0
    ensures CumulativeQuery(p)[|p| - 1] == Sum(p)
  {
    assert p[..|p|] == p;
  }

  /** The seven-row window sum is the difference of two running sums, so the
      two queries agree. */
  lemma SlidingFromCumulative(p: seq<nat>, i: nat)
    requires i < |p|
    ensures Sum(Window(p, i)) + (if i >= WindowRows then CumulativeQuery(p)[i - WindowRows] else 0)
            == CumulativeQuery(p)[i]
  {
    var s := WindowStart(i);
    assert p[..i + 1] == p[..s] + Window(p, i);
    SumConcat(p[..s], Window(p, i));
    if i < WindowRows {
      assert p[..s] == [];
    } else {
      assert s == i - WindowRows + 1;
    }
  }

  // ---------------------------------------------------------------------------
  // getSumByDate

  /** `date(timestamp)`: the UTC calendar day, numbered from the epoch.
      Comparing day numbers orders days as comparing `YYYY-MM-DD` text does. */
  function DayOf(timestamp: int): (d: int)
    ensures d * 86400 <= timestamp < (d + 1) * 86400
  {
    timestamp / 86400
  }

  lemma DayOfMonotone(t1: int, t2: int)
    requires t1 <= t2
    ensures DayOf(t1) <= DayOf(t2)
  {
  }

  /** One row of the grouped query: a day and the sum of its gas prices. */
  datatype DateSum = DateSum(date: int, total: nat)

  /** The days on which some filtered row falls. */
  function Dates(ps: seq<PricedRow>): set<int> {
    set i | 0 <= i < |ps| :: DayOf(ps[i].timestamp)
  }

  /** `SUM(gas_price)` over the filtered rows of day `d`. */
  function DateTotal(ps: seq<PricedRow>, d: int): nat {
    if ps == [] then 0
    else (if DayOf(ps[0].timestamp) == d then ps[0].gasPrice else 0) + DateTotal(ps[1..], d)
  }

  /** The rows of every day but `d`. */
  function OtherDates(ps: seq<PricedRow>, d: int): (r: seq<PricedRow>)
    ensures |r| <= |ps|
  {
    if ps == [] then []
    else (if DayOf(ps[0].timestamp) == d then [] else [ps[0]]) + OtherDates(ps[1..], d)
  }

  lemma DatesCons(ps: seq<PricedRow>)
    requires ps != []
    ensures Dates(ps) == {DayOf(ps[0].timestamp)} + Dates(ps[1..])
  {
    forall x | x in Dates(ps) ensures x in {DayOf(ps[0].timestamp)} + Dates(ps[1..]) {
      var i :| 0 <= i < |ps| && x == DayOf(ps[i].timestamp);
      if i > 0 { assert ps[i] == ps[1..][i - 1]; }
    }
    forall x | x in Dates(ps[1..]) ensures x in Dates(ps) {
      var i :| 0 <= i < |ps[1..]| && x == DayOf(ps[1..][i].timestamp);
      assert ps[1..][i] == ps[i + 1];
    }
  }

  lemma PricesCons(ps: seq<PricedRow>)
    requires ps != []
    ensures Prices(ps) == [ps[0].gasPrice] + Prices(ps[1..])
  {
  }

  /** Removing day `d` removes exactly that day's rows: its total drops to
      zero, every other day's total and the total of the rest are unchanged,
      and the order is kept. */
  lemma {:induction false} OtherDatesSplit(ps: seq<PricedRow>, d: int)
    ensures var r := OtherDates(ps, d);
      DateTotal(r, d) == 0 &&
      (forall e :: e != d ==> DateTotal(r, e) == DateTotal(ps, e)) &&
      Dates(r) == Dates(ps) - {d} &&
      Sum(Prices(ps)) == DateTotal(ps, d) + Sum(Prices(r)) &&
      (PricedSortedDesc(ps) ==> PricedSortedDesc(r))
  {
    if ps != [] {
      var rest := OtherDates(ps[1..], d);
      OtherDatesSplit(ps[1..], d);
      var r := OtherDates(ps, d);
      PricesCons(ps);
      DatesCons(ps);
      if DayOf(ps[0].timestamp) == d {
        assert r == rest;
      } else {
        assert r == [ps[0]] + rest;
        assert r[1..] == rest;
        PricesCons(r);
        DatesCons(r);
        if PricedSortedDesc(ps) {
          forall i, j | 0 <= i < j < |r| ensures r[i].timestamp >= r[j].timestamp {
            if i == 0 {
              OtherDatesFrom(ps[1..], d, j - 1);
            } else {
              assert r[i] == rest[i - 1] && r[j] == rest[j - 1];
            }
          }
        }
      }
    }
  }

  /** A row kept by `OtherDates` is one of the input rows. */
  lemma {:induction false} OtherDatesFrom(ps: seq<PricedRow>, d: int, k: nat)
    requires k < |OtherDates(ps, d)|
    ensures OtherDates(ps, d)[k] in ps
  {
    if DayOf(ps[0].timestamp) == d {
      OtherDatesFrom(ps[1..], d, k);
    } else if k > 0 {
      OtherDatesFrom(ps[1..], d, k - 1);
    }
  }

  /** `GROUP BY date(timestamp) ORDER BY date DESC`: one entry per day, each
      carrying that day's total. The days are listed as they first appear in
      the newest-first rows, which is descending (see GroupByDateDescending). */
  function GroupByDate(ps: seq<PricedRow>): (g: seq<DateSum>)
    ensures GroupDates(g) == Dates(ps)
    ensures forall k :: 0 <= k < |g| ==> g[k].total == DateTotal(ps, g[k].date)
    ensures forall k, l :: 0 <= k < l < |g| ==> g[k].date != g[l].date
    decreases |ps|
  {
    if ps == [] then []
    else
      var d := DayOf(ps[0].timestamp);
      var others := OtherDates(ps[1..], d);
      var rest := GroupByDate(others);
      var g := [DateSum(d, DateTotal(ps, d))] + rest;
      DatesCons(ps);
      OtherDatesSplit(ps[1..], d);
      GroupDatesCons(g);
      assert g[1..] == rest;
      assert forall k :: 0 < k < |g| ==> g[k] == rest[k - 1];
      assert forall k :: 0 < k < |g| ==> g[k].date in GroupDates(rest);
      g
  }

  /** The days a grouped result lists. */
  function GroupDates(g: seq<DateSum>): set<int> {
    set k | 0 <= k < |g| :: g[k].date
  }

  lemma GroupDatesCons(g: seq<DateSum>)
    requires g != []
    ensures GroupDates(g) == {g[0].date} + GroupDates(g[1..])
  {
    forall x | x in GroupDates(g) ensures x in {g[0].date} + GroupDates(g[1..]) {
      var k :| 0 <= k < |g| && x == g[k].date;
      if k > 0 { assert g[k] == g[1..][k - 1]; }
    }
    forall x | x in GroupDates(g[1..]) ensures x in GroupDates(g) {
      var k :| 0 <= k < |g[1..]| && x == g[1..][k].date;
      assert g[1..][k] == g[k + 1];
    }
  }

  /** The grouped query of the whole table. */
  function SumByDateQuery(rows: seq<Row>): seq<DateSum> {
    GroupByDate(Priced(rows))
  }

  function SumTotals(g: seq<DateSum>): nat {
    if g == [] then 0 else g[0].total + SumTotals(g[1..])
  }

  /** The per-day totals partition the total gas price. */
  lemma {:induction false} GroupByDatePartition(ps: seq<PricedRow>)
    ensures SumTotals(GroupByDate(ps)) == Sum(Prices(ps))
    decreases |ps|
  {
    if ps != [] {
      var d := DayOf(ps[0].timestamp);
      var others := OtherDates(ps[1..], d);
      GroupByDatePartition(others);
      OtherDatesSplit(ps[1..], d);
      PricesCons(ps);
      var g := GroupByDate(ps);
      assert g[1..] == GroupByDate(others);
      assert DateTotal(ps, d) == ps[0].gasPrice + DateTotal(ps[1..], d);
    }
  }

  /** For newest-first rows the days come out in descending order, as
      `ORDER BY date DESC` lists them. */
  lemma {:induction false} GroupByDateDescending(ps: seq<PricedRow>)
    requires PricedSortedDesc(ps)
    ensures var g := GroupByDate(ps);
      forall k, l :: 0 <= k < l < |g| ==> g[k].date > g[l].date
    decreases |ps|
  {
    if ps != [] {
      var d := DayOf(ps[0].timestamp);
      var others := OtherDates(ps[1..], d);
      OtherDatesSplit(ps[1..], d);
      GroupByDateDescending(others);
      var g := GroupByDate(ps);
      assert g[1..] == GroupByDate(others);
      forall l | 0 < l < |g| ensures d > g[l].date {
        assert g[l].date in Dates(others);
        var i :| 0 <= i < |ps[1..]| && g[l].date == DayOf(ps[1..][i].timestamp);
        DayOfMonotone(ps[1..][i].timestamp, ps[0].timestamp);
      }
      forall k, l | 0 < k < l < |g| ensures g[k].date > g[l].date {
        assert g[k] == g[1..][k - 1] && g[l] == g[1..][l - 1];
      }
    }
  }

  /** `getSumByDate`: folds the grouped rows into a record keyed by day,
      assigning each day's total as decimal text. */
  method GetSumByDate(rows: seq<Row>) returns (record: map<int, string>)
    ensures record.Keys == Dates(Priced(rows))
    ensures forall d :: d in record ==> record[d] == ToDecimal(DateTotal(Priced(rows), d))
  {
    var groups := SumByDateQuery(rows);
    record := map[];
    var k := 0;
    while k < |groups|
      invariant 0 <= k <= |groups|
      invariant record.Keys == set i | 0 <= i < k :: groups[i].date
      invariant forall d :: d in record ==> record[d] == ToDecimal(DateTotal(Priced(rows), d))
    {
      record := record[groups[k].date := ToDecimal(groups[k].total)];
      k := k + 1;
    }
  }

  /** The last running sum, the sum of all per-day totals and the total gas
      price of the table all agree. */
  lemma TotalsAgree(rows: seq<Row>)
    requires |Priced(rows)| > 0
    ensures var p := Prices(Priced(rows));
      GetCumulativeSum(rows)[|p| - 1] == Sum(p) == SumTotals(SumByDateQuery(rows))
  {
    CumulativeSumTotal(Prices(Priced(rows)));
    GroupByDatePartition(Priced(rows));
  }

  // ---------------------------------------------------------------------------
  // getEvents

  function ToEvent(r: Row): Event {
    Event(r.txHash, r.blockNumber, r.fromAddress, r.toAddress, r.amount, r.gasPrice, r.timestamp)
  }

  function ToRow(e: Event): Row {
    Row(e.txHash, e.blockNumber, e.from, e.to, e.amount, e.gasPrice, e.timeStamp)
  }

  /** `getEvents`: every row, null gas prices included, with its columns
      renamed; the renaming loses nothing. */
  function GetEvents(rows: seq<Row>): (events: seq<Event>)
    ensures |events| == |rows|
    ensures forall i :: 0 <= i < |rows| ==> ToRow(events[i]) == rows[i]
  {
    seq(|rows|, i requires 0 <= i < |rows| => ToEvent(rows[i]))
  }

  /** The events keep the newest-first order and each keeps its gas price or
      its null. */
  lemma GetEventsOrder(rows: seq<Row>)
    requires SortedDesc(rows)
    ensures var events := GetEvents(rows);
      (forall i, j :: 0 <= i < j < |events| ==> events[i].timeStamp >= events[j].timeStamp) &&
      (forall i :: 0 <= i < |events| ==> events[i].gasPrice == rows[i].gasPrice)
  {
    var events := GetEvents(rows);
    forall i | 0 <= i < |events| ensures events[i].timeStamp == rows[i].timestamp {
      assert ToRow(events[i]) == rows[i];
    }
  }
}
