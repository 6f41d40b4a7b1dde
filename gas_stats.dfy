/** The gas-price statistics that `main` in src/index.ts computes over the
    account's token transfers: each transfer is paired with the gas price of
    its transaction, transfers without one are dropped, and the maximum,
    minimum and truncating average gas price are folded over the rest.

    The explorer fetch and the node's transaction lookup are network calls;
    here the transfers arrive as a sequence and the lookups as a sequence of
    outcomes aligned with it. */
module GasStats {
  import opened Wrappers
  import opened Decimal
  import opened Sequences

  /** One transfer as returned by the explorer's `tokentx` listing. */
  datatype Transfer = Transfer(hash: string, blockNumber: string, from: string, to: string, value: string)

  /** What the node answered for `getTransaction`: it threw, or it returned a
      transaction whose `gasPrice` field may be absent. */
  datatype TxLookup = LookupFailed | TxFound(gasPrice: Option<nat>)

  /** The record `main` builds per transfer; `gasPrice` holds the decimal
      text of the price, or `null`. */
  datatype Event = Event(txHash: string, blockNumber: string, from: string, to: string,
                         amount: string, gasPrice: Option<string>)

  /** The `gasStats` object written out: all three values as decimal text. */
  datatype Stats = Stats(min: string, max: string, avg: string)

  datatype Output = Output(events: seq<Event>, gasStats: Stats)

  /** `0n / 0n` throws a RangeError in JavaScript. */
  datatype Error = RangeError

  /** `getTxGasPrice`: never throws; a failed lookup or a missing price is `null`. */
  function TxGasPrice(lookup: TxLookup): (r: Option<nat>)
    ensures r.Some? <==> lookup.TxFound? && lookup.gasPrice.Some?
    ensures lookup.TxFound? ==> r == lookup.gasPrice
  {
    match lookup
    case LookupFailed => None
    case TxFound(price) => price
  }

  /** The body of the `rawEvents.map` callback for one transfer. */
  function ToEvent(t: Transfer, lookup: TxLookup): Event {
    var price := TxGasPrice(lookup);
    Event(t.hash, t.blockNumber, t.from, t.to, t.value,
          if price.Some? then Some(ToDecimal(price.value)) else None)
  }

  /** `events`: one record per transfer, in the same order. */
  function MapEvents(raw: seq<Transfer>, lookups: seq<TxLookup>): (events: seq<Event>)
    requires |lookups| == |raw|
    ensures |events| == |raw|
  {
    if raw == [] then [] else [ToEvent(raw[0], lookups[0])] + MapEvents(raw[1..], lookups[1..])
  }

  /** The prices the lookups produced, in transfer order: the independent
      reference for what the statistics range over. */
  function FoundPrices(lookups: seq<TxLookup>): seq<nat> {
    if lookups == [] then []
    else
      var price := TxGasPrice(lookups[0]);
      (if price.Some? then [price.value] else []) + FoundPrices(lookups[1..])
  }

  /** `validEvents`: the events whose gas price is not `null`. */
  function ValidEvents(events: seq<Event>): (valid: seq<Event>)
    ensures forall i :: 0 <= i < |valid| ==> valid[i].gasPrice.Some? && valid[i] in events
    ensures |valid| <= |events|
    ensures WellFormed(events) ==> WellFormed(valid)
  {
    if events == [] then []
    else (if events[0].gasPrice.Some? then [events[0]] else []) + ValidEvents(events[1..])
  }

  /** Every gas price an event carries is decimal text. */
  predicate WellFormed(events: seq<Event>) {
    forall i :: 0 <= i < |events| && events[i].gasPrice.Some? ==> AllDigits(events[i].gasPrice.value)
  }

  /** `gasPricesWei`: `BigInt` applied to each valid event's gas price. */
  function GasPricesWei(valid: seq<Event>): (prices: seq<nat>)
    requires forall i :: 0 <= i < |valid| ==> valid[i].gasPrice.Some?
    requires WellFormed(valid)
    ensures |prices| == |valid|
  {
    if valid == [] then [] else [ParseDecimal(valid[0].gasPrice.value)] + GasPricesWei(valid[1..])
  }

  /** The `reduce` behind `maxGas`, started from accumulator `acc`. */
  function FoldMax(acc: nat, prices: seq<nat>): (r: nat)
    ensures acc <= r
    ensures forall i :: 0 <= i < |prices| ==> prices[i] <= r
    ensures r == acc || r in prices
    decreases |prices|
  {
    if prices == [] then acc
    else FoldMax(if prices[0] > acc then prices[0] else acc, prices[1..])
  }

  /** The `reduce` behind `minGas`, started from accumulator `acc`. */
  function FoldMin(acc: nat, prices: seq<nat>): (r: nat)
    ensures r <= acc
    ensures forall i :: 0 <= i < |prices| ==> r <= prices[i]
    ensures r == acc || r in prices
    decreases |prices|
  {
    if prices == [] then acc
    else FoldMin(if prices[0] < acc then prices[0] else acc, prices[1..])
  }

  /** The `reduce` behind the numerator of `avgGas`. */
  function FoldSum(acc: nat, prices: seq<nat>): (r: nat)
    ensures r == acc + Sum(prices)
    decreases |prices|
  {
    if prices == [] then acc else FoldSum(acc + prices[0], prices[1..])
  }

  /** `maxGas`, seeded with `0n`: an upper bound of every price and, when there
      is one, the largest price. The seed is harmless because prices are
      non-negative. */
  function MaxGas(prices: seq<nat>): (r: nat)
    ensures forall i :: 0 <= i < |prices| ==> prices[i] <= r
    ensures prices == [] ==> r == 0
    ensures prices != [] ==> r == SeqMax(prices)
  {
    var r := FoldMax(0, prices);
    r
  }

  /** `minGas`, seeded with `maxGas`. */
  function MinGas(prices: seq<nat>): (r: nat)
    ensures forall i :: 0 <= i < |prices| ==> r <= prices[i]
    ensures r <= MaxGas(prices)
    ensures prices == [] ==> r == 0
    ensures prices != [] ==> r == SeqMin(prices)
  {
    FoldMin(MaxGas(prices), prices)
  }

  /** `avgGas`: the sum divided by the count with `bigint` (truncating)
      division, which throws when there are no prices. */
  function AvgGas(prices: seq<nat>): (r: Result<nat, Error>)
    ensures r.Failure? <==> prices == []
    ensures r.Success? ==> r.value == Sum(prices) / |prices|
    ensures r.Success? ==> MinGas(prices) <= r.value <= MaxGas(prices)
  {
    if |prices| == 0 then Failure(RangeError)
    else
      var avg := FoldSum(0, prices) / |prices|;
      SumBounds(prices, MinGas(prices), MaxGas(prices));
      DivBetween(Sum(prices), |prices|, MinGas(prices), MaxGas(prices));
      Success(avg)
  }

  /** The `gasStats` object: `maxGas`, `minGas` and `avgGas` written with
      `toString`, or the exception the average raises for no prices. */
  function GasStatsOf(prices: seq<nat>): (r: Result<Stats, Error>)
    ensures r.Failure? <==> prices == []
    ensures r.Success? ==>
      r.value.max == ToDecimal(SeqMax(prices)) &&
      r.value.min == ToDecimal(SeqMin(prices)) &&
      r.value.avg == ToDecimal(Sum(prices) / |prices|)
  {
    var maxGas := MaxGas(prices);
    var minGas := MinGas(prices);
    match AvgGas(prices)
    case Failure(e) => Failure(e)
    case Success(avgGas) => Success(Stats(ToDecimal(minGas), ToDecimal(maxGas), ToDecimal(avgGas)))
  }

  /** Read back with `BigInt`, the written average lies between the written
      minimum and maximum. */
  lemma GasStatsOrdered(prices: seq<nat>)
    requires prices != []
    ensures var stats := GasStatsOf(prices).value;
      ParseDecimal(stats.min) <= ParseDecimal(stats.avg) <= ParseDecimal(stats.max)
  {
    var avg := AvgGas(prices).value;
    ParseToDecimal(MinGas(prices));
    ParseToDecimal(MaxGas(prices));
    ParseToDecimal(avg);
  }

  /** `main` after the fetches: the output record, or the exception that
      the average's division by zero raises. */
  function Run(raw: seq<Transfer>, lookups: seq<TxLookup>): (r: Result<Output, Error>)
    requires |lookups| == |raw|
    ensures r.Failure? <==> FoundPrices(lookups) == []
    ensures r.Success? ==> r.value.events == ValidEvents(MapEvents(raw, lookups))
    ensures r.Success? ==> forall i :: 0 <= i < |r.value.events| ==> r.value.events[i].gasPrice.Some?
    ensures r.Success? ==> Success(r.value.gasStats) == GasStatsOf(FoundPrices(lookups))
  {
    var events := MapEvents(raw, lookups);
    PricesRoundTrip(raw, lookups);
    var validEvents := ValidEvents(events);
    var prices := GasPricesWei(validEvents);
    assert prices == FoundPrices(lookups);
    match GasStatsOf(prices)
    case Failure(e) => Failure(e)
    case Success(gasStats) => Success(Output(validEvents, gasStats))
  }

  /** When some lookup produced a price, `main` writes the `toString` text of
      the smallest, the largest and the truncated mean of those prices. */
  lemma RunWritesStats(raw: seq<Transfer>, lookups: seq<TxLookup>)
    requires |lookups| == |raw| && FoundPrices(lookups) != []
    ensures Run(raw, lookups).Success?
    ensures var found := FoundPrices(lookups);
      var stats := Run(raw, lookups).value.gasStats;
      stats.max == ToDecimal(SeqMax(found)) &&
      stats.min == ToDecimal(SeqMin(found)) &&
      stats.avg == ToDecimal(Sum(found) / |found|)
  {
    var found := FoundPrices(lookups);
    var stats := GasStatsOf(found).value;
    assert Run(raw, lookups).value.gasStats == stats;
  }

  lemma {:induction false} MapEventsWellFormed(raw: seq<Transfer>, lookups: seq<TxLookup>)
    requires |lookups| == |raw|
    ensures WellFormed(MapEvents(raw, lookups))
  {
    if raw != [] {
      MapEventsWellFormed(raw[1..], lookups[1..]);
    }
  }

  /** Record i of `events` copies transfer i's fields, and its gas price is
      `null` exactly when the lookup for transfer i yielded none; otherwise
      it is the decimal text of that price. */
  lemma {:induction false} MapEventsAligned(raw: seq<Transfer>, lookups: seq<TxLookup>, i: nat)
    requires |lookups| == |raw| && i < |raw|
    ensures var e := MapEvents(raw, lookups)[i];
      e.txHash == raw[i].hash && e.blockNumber == raw[i].blockNumber &&
      e.from == raw[i].from && e.to == raw[i].to && e.amount == raw[i].value &&
      (e.gasPrice.None? <==> TxGasPrice(lookups[i]).None?) &&
      (e.gasPrice.Some? ==> e.gasPrice == Some(ToDecimal(TxGasPrice(lookups[i]).value))) &&
      (e.gasPrice.Some? ==> AllDigits(e.gasPrice.value) &&
                            ParseDecimal(e.gasPrice.value) == TxGasPrice(lookups[i]).value)
  {
    if i == 0 {
      var price := TxGasPrice(lookups[0]);
      if price.Some? {
        ParseToDecimal(price.value);
      }
    } else {
      MapEventsAligned(raw[1..], lookups[1..], i - 1);
    }
  }

  /** `validEvents` keeps the events it keeps in their original order. */
  lemma {:induction false} ValidEventsSubsequence(events: seq<Event>)
    ensures IsSubsequence(ValidEvents(events), events)
  {
    if events != [] {
      ValidEventsSubsequence(events[1..]);
      var rest := ValidEvents(events[1..]);
      if events[0].gasPrice.Some? {
        assert ValidEvents(events) == [events[0]] + rest;
        assert ([events[0]] + rest)[1..] == rest;
      } else {
        assert ValidEvents(events) == rest;
        SubsequenceSkip(rest, events);
      }
    }
  }

  /** A subsequence of the tail is a subsequence of the whole. */
  lemma {:induction false} SubsequenceSkip<T>(a: seq<T>, b: seq<T>)
    requires b != [] && IsSubsequence(a, b[1..])
    ensures IsSubsequence(a, b)
    decreases |a| + |b|
  {
    if a != [] && a[0] == b[0] {
      SubsequenceDropHead(a, b[1..]);
    }
  }

  /** Dropping the first element of a subsequence keeps it a subsequence. */
  lemma {:induction false} SubsequenceDropHead<T>(a: seq<T>, b: seq<T>)
    requires a != [] && IsSubsequence(a, b)
    ensures IsSubsequence(a[1..], b)
    decreases |a| + |b|
  {
    if a[0] == b[0] {
      SubsequenceSkip(a[1..], b);
    } else {
      SubsequenceDropHead(a, b[1..]);
      SubsequenceSkip(a[1..], b);
    }
  }

  /** No event with a gas price is dropped. */
  lemma {:induction false} ValidEventsComplete(events: seq<Event>, i: nat)
    requires i < |events| && events[i].gasPrice.Some?
    ensures events[i] in ValidEvents(events)
  {
    if i > 0 {
      ValidEventsComplete(events[1..], i - 1);
    }
  }

  /** A list whose events all carry a gas price passes the filter unchanged. */
  lemma {:induction false} ValidEventsKeepsPriced(events: seq<Event>)
    requires forall i :: 0 <= i < |events| ==> events[i].gasPrice.Some?
    ensures ValidEvents(events) == events
  {
    if events != [] {
      ValidEventsKeepsPriced(events[1..]);
      assert events == [events[0]] + events[1..];
    }
  }

  /** The number of events that carry a gas price. */
  function CountPriced(events: seq<Event>): nat {
    if events == [] then 0
    else (if events[0].gasPrice.Some? then 1 else 0) + CountPriced(events[1..])
  }

  /** The filter works event by event: filtering a concatenation
      concatenates the filtered parts. With the one-event case below this
      fixes `validEvents` completely, duplicates included. */
  lemma {:induction false} ValidEventsConcat(a: seq<Event>, b: seq<Event>)
    ensures ValidEvents(a + b) == ValidEvents(a) + ValidEvents(b)
  {
    if a == [] {
      assert a + b == b;
    } else {
      var head := if a[0].gasPrice.Some? then [a[0]] else [];
      calc {
        ValidEvents(a + b);
        { assert a + b == [a[0]] + (a[1..] + b); }
        ValidEvents([a[0]] + (a[1..] + b));
        { ValidEventsCons(a[0], a[1..] + b); }
        head + ValidEvents(a[1..] + b);
        { ValidEventsConcat(a[1..], b); }
        head + (ValidEvents(a[1..]) + ValidEvents(b));
        (head + ValidEvents(a[1..])) + ValidEvents(b);
        { ValidEventsCons(a[0], a[1..]); assert a == [a[0]] + a[1..]; }
        ValidEvents(a) + ValidEvents(b);
      }
    }
  }

  lemma ValidEventsCons(e: Event, rest: seq<Event>)
    ensures ValidEvents([e] + rest) == (if e.gasPrice.Some? then [e] else []) + ValidEvents(rest)
  {
    assert ([e] + rest)[1..] == rest;
  }

  /** A single event is kept exactly when it carries a gas price. */
  lemma ValidEventsSingle(e: Event)
    ensures ValidEvents([e]) == if e.gasPrice.Some? then [e] else []
  {
    assert [e][1..] == [];
  }

  /** Exactly as many events are kept as carry a gas price: none is dropped,
      not even a duplicate. */
  lemma {:induction false} ValidEventsCount(events: seq<Event>)
    ensures |ValidEvents(events)| == CountPriced(events)
  {
    if events != [] {
      ValidEventsCount(events[1..]);
    }
  }

  /** Filtering twice changes nothing. */
  lemma ValidEventsIdempotent(events: seq<Event>)
    ensures ValidEvents(ValidEvents(events)) == ValidEvents(events)
  {
    ValidEventsKeepsPriced(ValidEvents(events));
  }

  /** The prices the statistics are folded over are exactly the prices the
      lookups produced: `toString` and `BigInt` cancel out. */
  lemma {:induction false} PricesRoundTrip(raw: seq<Transfer>, lookups: seq<TxLookup>)
    requires |lookups| == |raw|
    ensures WellFormed(MapEvents(raw, lookups))
    ensures GasPricesWei(ValidEvents(MapEvents(raw, lookups))) == FoundPrices(lookups)
  {
    MapEventsWellFormed(raw, lookups);
    if raw != [] {
      PricesRoundTrip(raw[1..], lookups[1..]);
      var events := MapEvents(raw, lookups);
      assert events == [events[0]] + MapEvents(raw[1..], lookups[1..]);
      assert events[1..] == MapEvents(raw[1..], lookups[1..]);
      var rest := ValidEvents(events[1..]);
      var price := TxGasPrice(lookups[0]);
      if price.Some? {
        ParseToDecimal(price.value);
        var valid := [events[0]] + rest;
        assert ValidEvents(events) == valid;
        assert valid[1..] == rest;
        assert GasPricesWei(valid) == [price.value] + GasPricesWei(rest);
      } else {
        assert ValidEvents(events) == rest;
      }
    }
  }
}
