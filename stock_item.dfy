/** The number and sign formatting of one row of the sector stock list:
    large numbers get a B, M or K suffix, a price change is classed as
    rising, falling or flat, and a rising change is prefixed with `+`. */
module StockItem {
  import opened Numbers
  import StockApi

  /** One listed stock, as the sector data describes it. */
  datatype Stock = Stock(
    code: string,
    name: string,
    price: real,
    change: real,
    changePercent: real,
    volume: real,
    marketCap: real)

  /** `formatNumber`: from 10^9 up the value is shown in billions, from
      10^6 in millions, from 10^3 in thousands, each to one decimal;
      anything smaller, negatives included, is shown as it is. */
  function FormatNumber(num: real): (r: Label)
    ensures r.prefix == ""
    ensures r.suffix == "B" <==> num >= 1000000000.0
    ensures r.suffix == "M" <==> 1000000.0 <= num < 1000000000.0
    ensures r.suffix == "K" <==> 1000.0 <= num < 1000000.0
    ensures r.suffix == "" <==> num < 1000.0
    ensures num < 1000.0 ==> r.amount == num
    ensures num >= 1000.0 ==> RoundsTo(num / SuffixScale(r.suffix), 1, r.amount)
  {
    if num >= 1000000000.0 then
      ToFixedRounds(num / 1000000000.0, 1);
      Label("", ToFixed(num / 1000000000.0, 1), "B")
    else if num >= 1000000.0 then
      ToFixedRounds(num / 1000000.0, 1);
      Label("", ToFixed(num / 1000000.0, 1), "M")
    else if num >= 1000.0 then
      ToFixedRounds(num / 1000.0, 1);
      Label("", ToFixed(num / 1000.0, 1), "K")
    else Label("", num, "")
  }

  /** The divisor of each suffix. */
  function SuffixScale(suffix: string): real {
    if suffix == "B" then 1000000000.0
    else if suffix == "M" then 1000000.0
    else if suffix == "K" then 1000.0
    else 1.0
  }

  /** Each suffixed tier shows the value divided by its scale, rounded to
      one decimal: the shown number times the scale is within half a tenth
      of the scale from the input. */
  lemma FormatNumberScaled(num: real)
    ensures var r := FormatNumber(num);
            && (num >= 1000.0 ==> Scaled(r.amount, 1) == Scaled(r.amount, 1).Floor as real)
            && 20.0 * Abs(r.amount * SuffixScale(r.suffix) - num) <= SuffixScale(r.suffix)
  {
    var r := FormatNumber(num);
    assert Scale(1) == 10.0;
    if num >= 1000000000.0 {
      var x := num / 1000000000.0;
      assert Abs(r.amount * 1000000000.0 - num) == Abs(r.amount - x) * 1000000000.0;
    } else if num >= 1000000.0 {
      var x := num / 1000000.0;
      assert Abs(r.amount * 1000000.0 - num) == Abs(r.amount - x) * 1000000.0;
    } else if num >= 1000.0 {
      var x := num / 1000.0;
      assert Abs(r.amount * 1000.0 - num) == Abs(r.amount - x) * 1000.0;
    }
  }

  /** Before rounding, the scaled value of a suffixed tier is at least 1,
      and below 1000 in the K and M tiers; after rounding to one decimal it
      is still at least 1, and at most 1000 in the K and M tiers. */
  lemma FormatNumberTierBounds(num: real)
    requires num >= 1000.0
    ensures var r := FormatNumber(num);
            && 1.0 <= num / SuffixScale(r.suffix)
            && (r.suffix != "B" ==> num / SuffixScale(r.suffix) < 1000.0)
            && 1.0 <= r.amount
            && (r.suffix != "B" ==> r.amount <= 1000.0)
  {
    if num >= 1000000000.0 {
      TierRounding(num / 1000000000.0);
    } else if num >= 1000000.0 {
      TierRounding(num / 1000000.0);
    } else {
      TierRounding(num / 1000.0);
    }
  }

  /** A tier's scaled value, at least 1, rounded to one decimal stays at
      least 1, and one of at most 1000 stays at most 1000. */
  lemma TierRounding(x: real)
    requires 1.0 <= x
    ensures 1.0 <= ToFixed(x, 1)
    ensures x <= 1000.0 ==> ToFixed(x, 1) <= 1000.0
  {
    assert Scale(1) == 10.0;
    ToFixedAtLeast(x, 1, 10);
    if x <= 1000.0 {
      ToFixedAtMost(x, 1, 10000);
    }
  }

  /** The rounding can carry a K or M value up to 1000.0: 999 960 is shown
      as 1000.0K, not as 1.0M. */
  lemma FormatNumberRoundsUpToThousand()
    ensures FormatNumber(999960.0) == Label("", 1000.0, "K")
  {
    assert Scale(1) == 10.0;
    assert Scaled(999.96, 1) == 9999.6;
    assert RoundHalfUp(9999.6) == 10000;
  }

  /** The colour class of a price change. */
  datatype ChangeClass = Positive | Negative | Neutral

  /** `getChangeClass`: exactly one class, by the sign of the change. */
  function GetChangeClass(change: real): (c: ChangeClass)
    ensures c == Positive <==> change > 0.0
    ensures c == Negative <==> change < 0.0
    ensures c == Neutral <==> change == 0.0
  {
    if change > 0.0 then Positive
    else if change < 0.0 then Negative
    else Neutral
  }

  /** The sign prefix of the change and change-percent texts: `+` only for
      a strictly positive value, so a zero change is unsigned. */
  function ChangePrefix(value: real): (p: string)
    ensures p == "+" <==> value > 0.0
    ensures p == "" <==> value <= 0.0
  {
    if value > 0.0 then "+" else ""
  }

  /** The change text of a row: its sign prefix and the change to two
      decimals. */
  function ChangeText(stock: Stock): (r: Label)
    ensures (r.prefix == "+") == (stock.change > 0.0)
    ensures (r.prefix == "") == (stock.change <= 0.0)
    ensures r.suffix == ""
    ensures RoundsTo(stock.change, 2, r.amount)
    ensures 200.0 * Abs(r.amount - stock.change) <= 1.0
  {
    assert Scale(2) == 100.0;
    ToFixedRounds(stock.change, 2);
    Label(ChangePrefix(stock.change), ToFixed(stock.change, 2), "")
  }

  /** The change-percent text of a row: sign prefix, two decimals, `%`.
      The parentheses around it are markup. */
  function ChangePercentText(stock: Stock): (r: Label)
    ensures (r.prefix == "+") == (stock.changePercent > 0.0)
    ensures (r.prefix == "") == (stock.changePercent <= 0.0)
    ensures r.suffix == "%"
    ensures RoundsTo(stock.changePercent, 2, r.amount)
    ensures 200.0 * Abs(r.amount - stock.changePercent) <= 1.0
  {
    assert Scale(2) == 100.0;
    ToFixedRounds(stock.changePercent, 2);
    Label(ChangePrefix(stock.changePercent), ToFixed(stock.changePercent, 2), "%")
  }

  /** The row's `+` and its colour class agree: the prefix is shown
      exactly on the rows classed positive. */
  lemma PrefixMatchesClass(stock: Stock)
    ensures (ChangeText(stock).prefix == "+") == (GetChangeClass(stock.change) == Positive)
  {
  }

  /** The stock list and the screening views sign values differently: the
      screening formatters put `+` on zero, the stock list does not, and
      that is the only value on which they disagree. */
  lemma PrefixRulesDiffer(value: real)
    ensures (ChangePrefix(value) == StockApi.FormatPriceDiff(value).prefix) <==> value != 0.0
    ensures (ChangePrefix(value) == StockApi.FormatPercentage(value).prefix) <==> value != 0.0
  {
  }
}
