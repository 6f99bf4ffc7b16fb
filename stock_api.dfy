/** The screening-result normaliser of the "large cap below one-year
    average price" view, and the display helpers of the same service file.

    After the network round trip (not modelled), each record of the
    response gets two derived fields, the price difference to its one-year
    average and that difference as a percentage of the average, and the
    list is then sorted, largest absolute difference first. */
module StockApi {
  import opened Numbers
  import opened StableSort

  /** One record of the screening response; the field names are those of
      the wire format. Market value is in units of 10 000 yuan. */
  datatype StockData = StockData(
    ts_code: string,
    name: string,
    total_mv_10k: real,
    pe_ttm: real,
    current_close: real,
    weekly_last_close: real,
    avg_close_1y: real)

  /** A screening record with the two derived fields appended. */
  datatype ProcessedStockData = ProcessedStockData(
    ts_code: string,
    name: string,
    total_mv_10k: real,
    pe_ttm: real,
    current_close: real,
    weekly_last_close: real,
    avg_close_1y: real,
    price_diff: real,
    price_diff_percent: real)

  /** The fields a processed record carries over from the response. */
  function Base(p: ProcessedStockData): StockData {
    StockData(p.ts_code, p.name, p.total_mv_10k, p.pe_ttm,
              p.current_close, p.weekly_last_close, p.avg_close_1y)
  }

  /** The derived fields agree with the carried ones. */
  predicate WellDerived(p: ProcessedStockData) {
    && p.avg_close_1y != 0.0
    && p.current_close == p.avg_close_1y + p.price_diff
    && p.price_diff_percent * p.avg_close_1y == p.price_diff * 100.0
  }

  /** One step of the `map`: copy every field of `s` and append the
      difference to the average and its percentage of the average. The
      source has no guard against a zero average, which would make the
      percentage infinite or NaN, hence the precondition. */
  function Derive(s: StockData): (p: ProcessedStockData)
    requires s.avg_close_1y != 0.0
    ensures Base(p) == s
    ensures WellDerived(p)
  {
    var diff := s.current_close - s.avg_close_1y;
    ProcessedStockData(s.ts_code, s.name, s.total_mv_10k, s.pe_ttm,
                       s.current_close, s.weekly_last_close, s.avg_close_1y,
                       diff, diff / s.avg_close_1y * 100.0)
  }

  predicate NonZeroAverages(data: seq<StockData>) {
    forall i :: 0 <= i < |data| ==> data[i].avg_close_1y != 0.0
  }

  /** The whole `map` over the response's records. */
  function DeriveAll(data: seq<StockData>): (r: seq<ProcessedStockData>)
    requires NonZeroAverages(data)
    ensures |r| == |data|
    ensures forall i :: 0 <= i < |r| ==> Base(r[i]) == data[i] && WellDerived(r[i])
  {
    seq(|data|, i requires 0 <= i < |data| => Derive(data[i]))
  }

  /** The sort key: the comparator `|b.price_diff| - |a.price_diff|` orders
      records ascending by the negated magnitude of the difference. */
  function RankKey(p: ProcessedStockData): real {
    -Abs(p.price_diff)
  }

  /** The body of the fetch after the response is decoded: derive the two
      fields of every record into a fresh array, then sort that array in
      place, stably, by descending absolute price difference. */
  method ProcessScreening(data: seq<StockData>) returns (processed: seq<ProcessedStockData>)
    requires NonZeroAverages(data)
    ensures processed == SortBy(DeriveAll(data), RankKey)
    ensures |processed| == |data|
    ensures multiset(processed) == multiset(DeriveAll(data))
    ensures forall p :: p in processed ==> WellDerived(p) && Base(p) in data
    ensures forall i, j :: 0 <= i < j < |processed| ==>
              Abs(processed[i].price_diff) >= Abs(processed[j].price_diff)
    ensures forall k :: WithKey(processed, RankKey, k) == WithKey(DeriveAll(data), RankKey, k)
  {
    var derived := DeriveAll(data);
    var a := new ProcessedStockData[|data|](i requires 0 <= i < |data| => derived[i]);
    assert a[..] == derived;
    SortInPlace(a, RankKey);
    processed := a[..];
    SortBySorted(derived, RankKey);
    SortByPermutes(derived, RankKey);
    forall k ensures WithKey(processed, RankKey, k) == WithKey(derived, RankKey, k) {
      SortByStable(derived, RankKey, k);
    }
    forall p | p in processed ensures WellDerived(p) && Base(p) in data {
      assert p in multiset(derived);
      var i :| 0 <= i < |derived| && derived[i] == p;
      assert Base(p) == data[i];
    }
    forall i, j | 0 <= i < j < |processed|
      ensures Abs(processed[i].price_diff) >= Abs(processed[j].price_diff)
    {
      assert RankKey(processed[i]) <= RankKey(processed[j]);
    }
    assert |processed| == |multiset(processed)| == |derived|;
  }

  /** Two records 10 below and 30 above their averages: the one further
      from its average, by magnitude, is listed first. */
  lemma RankingExample(s1: StockData, s2: StockData)
    requires s1.avg_close_1y == 100.0 && s1.current_close == 90.0
    requires s2.avg_close_1y == 50.0 && s2.current_close == 80.0
    ensures DeriveAll([s1, s2]) == [Derive(s1), Derive(s2)]
    ensures Derive(s1).price_diff == -10.0 && Derive(s1).price_diff_percent == -10.0
    ensures Derive(s2).price_diff == 30.0 && Derive(s2).price_diff_percent == 60.0
    ensures SortBy(DeriveAll([s1, s2]), RankKey) == [Derive(s2), Derive(s1)]
  {
    var p1, p2 := Derive(s1), Derive(s2);
    assert DeriveAll([s1, s2]) == [p1, p2];
    assert [p1, p2][1..] == [p2];
    assert SortBy([p2], RankKey) == [p2];
    assert SortBy([p1, p2], RankKey) == Insert(p1, [p2], RankKey);
    assert RankKey(p2) < RankKey(p1);
    assert [p2][1..] == [];
    assert Insert(p1, [p2], RankKey) == [p2] + Insert(p1, [], RankKey) == [p2, p1];
  }

  /** `formatMarketValue`: the market value, given in units of 10 000
      yuan, shown in units of 100 million yuan (亿) with no decimals. */
  function FormatMarketValue(totalMv: real): (r: Label)
    ensures r.prefix == "" && r.suffix == "亿"
    ensures RoundsTo(totalMv / 10000.0, 0, r.amount)
    ensures r.amount == r.amount.Floor as real
    ensures 2.0 * Abs(r.amount * 10000.0 - totalMv) <= 10000.0
  {
    var yi := totalMv / 10000.0;
    ToFixedRounds(yi, 0);
    assert Scaled(ToFixed(yi, 0), 0) == ToFixed(yi, 0);
    assert Abs(ToFixed(yi, 0) * 10000.0 - totalMv) == Abs(ToFixed(yi, 0) - yi) * 10000.0;
    Label("", ToFixed(yi, 0), "亿")
  }

  /** A whole number of 亿 is shown exactly. */
  lemma MarketValueWhole(n: int)
    ensures FormatMarketValue(n as real * 10000.0).amount == n as real
  {
    ToFixedExact(n as real, 0, n);
  }

  /** The shared shape of `formatPriceDiff` and `formatPercentage`: a `+`
      in front of every non-negative value (zero included), the value to
      two decimals (a negative one brings its own minus sign), and a
      suffix. */
  function SignedTwoDecimals(x: real, suffix: string): (r: Label)
    ensures (r.prefix == "+") == (x >= 0.0)
    ensures r.prefix == "+" || r.prefix == ""
    ensures r.suffix == suffix
    ensures RoundsTo(x, 2, r.amount)
    ensures 200.0 * Abs(r.amount - x) <= 1.0
    ensures (r.amount >= 0.0) == (r.prefix == "+") || r.amount == 0.0
  {
    assert Scale(2) == 100.0;
    ToFixedRounds(x, 2);
    Label(if x >= 0.0 then "+" else "", ToFixed(x, 2), suffix)
  }

  /** `formatPriceDiff`: the signed price difference, two decimals. */
  function FormatPriceDiff(diff: real): (r: Label)
    ensures (r.prefix == "+") == (diff >= 0.0)
    ensures r.prefix == "+" || r.prefix == ""
    ensures r.suffix == ""
    ensures RoundsTo(diff, 2, r.amount)
    ensures 200.0 * Abs(r.amount - diff) <= 1.0
  {
    SignedTwoDecimals(diff, "")
  }

  /** `formatPercentage`: the signed percentage, two decimals, then `%`. */
  function FormatPercentage(percent: real): (r: Label)
    ensures (r.prefix == "+") == (percent >= 0.0)
    ensures r.prefix == "+" || r.prefix == ""
    ensures r.suffix == "%"
    ensures RoundsTo(percent, 2, r.amount)
    ensures 200.0 * Abs(r.amount - percent) <= 1.0
  {
    SignedTwoDecimals(percent, "%")
  }
}
