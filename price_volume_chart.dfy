/** The series preparation of the one-year price and volume chart: the
    points are put in trading-date order, a padded price-axis range is
    derived from the closing prices, traded amounts are converted for the
    tooltip, and axis ticks show the date without its year. */
module PriceVolumeChart {
  import opened Numbers
  import opened StableSort

  /** One trading day of the series, as the service sends it. `amount` is
      in thousands of yuan. */
  datatype PriceVolumePoint = PriceVolumePoint(
    trade_date: string,
    open: real,
    high: real,
    low: real,
    close: real,
    vol: real,
    amount: real)

  /** A calendar date in the proleptic Gregorian calendar. */
  datatype Date = Date(year: int, month: int, day: int)

  predicate IsLeapYear(year: int) {
    year % 4 == 0 && (year % 100 != 0 || year % 400 == 0)
  }

  function DaysInMonth(year: int, month: int): int
    requires 1 <= month <= 12
  {
    if month == 2 then (if IsLeapYear(year) then 29 else 28)
    else if month == 4 || month == 6 || month == 9 || month == 11 then 30
    else 31
  }

  /** A date the `YYYY-MM-DD` form can name. */
  predicate ValidDate(d: Date) {
    && 0 <= d.year <= 9999
    && 1 <= d.month <= 12
    && 1 <= d.day <= DaysInMonth(d.year, d.month)
  }

  /** Calendar order: `d1` is a strictly earlier day than `d2`. */
  predicate Before(d1: Date, d2: Date) {
    || d1.year < d2.year
    || (d1.year == d2.year && d1.month < d2.month)
    || (d1.year == d2.year && d1.month == d2.month && d1.day < d2.day)
  }

  predicate IsDigit(c: char) {
    '0' <= c <= '9'
  }

  function DigitValue(c: char): (n: int)
    requires IsDigit(c)
    ensures 0 <= n <= 9
  {
    c as int - '0' as int
  }

  function DigitChar(n: int): (c: char)
    requires 0 <= n <= 9
    ensures IsDigit(c) && DigitValue(c) == n
  {
    ('0' as int + n) as char
  }

  /** Ten characters: four digits, a dash, two digits, a dash, two digits. */
  predicate DateShaped(s: string) {
    && |s| == 10
    && s[4] == '-' && s[7] == '-'
    && forall i :: 0 <= i < 10 && i != 4 && i != 7 ==> IsDigit(s[i])
  }

  /** What `new Date(s)` reads from a `YYYY-MM-DD` string; `None` stands
      for the invalid date that any other string gives. */
  function ParseDate(s: string): (r: Option<Date>)
    ensures r.Some? ==> ValidDate(r.value)
    ensures r.Some? ==> DateShaped(s)
  {
    if !DateShaped(s) then None
    else
      var d := Date(
        1000 * DigitValue(s[0]) + 100 * DigitValue(s[1]) + 10 * DigitValue(s[2]) + DigitValue(s[3]),
        10 * DigitValue(s[5]) + DigitValue(s[6]),
        10 * DigitValue(s[8]) + DigitValue(s[9]));
      if ValidDate(d) then Some(d) else None
  }

  /** The `YYYY-MM-DD` text of a date. */
  function FormatDate(d: Date): (s: string)
    requires ValidDate(d)
    ensures DateShaped(s)
  {
    FourDigits(d.year);
    [DigitChar(d.year / 1000), DigitChar(d.year % 1000 / 100),
     DigitChar(d.year % 100 / 10), DigitChar(d.year % 10), '-',
     DigitChar(d.month / 10), DigitChar(d.month % 10), '-',
     DigitChar(d.day / 10), DigitChar(d.day % 10)]
  }

  /** The four decimal digits of a year, most significant first, put
      back together. */
  lemma FourDigits(n: int)
    requires 0 <= n <= 9999
    ensures 0 <= n / 1000 <= 9 && 0 <= n % 1000 / 100 <= 9 && 0 <= n % 100 / 10 <= 9
    ensures 1000 * (n / 1000) + 100 * (n % 1000 / 100) + 10 * (n % 100 / 10) + n % 10 == n
  {
    var r1 := n % 1000;
    assert n == 1000 * (n / 1000) + r1;
    var r2 := r1 % 100;
    assert r1 == 100 * (r1 / 100) + r2;
    assert n % 100 == r2;
    assert r2 == 10 * (r2 / 10) + r2 % 10;
    assert n % 10 == r2 % 10;
  }

  /** Parsing reads back the date that was written. */
  lemma ParseFormat(d: Date)
    requires ValidDate(d)
    ensures ParseDate(FormatDate(d)) == Some(d)
  {
    FourDigits(d.year);
  }

  /** Two date-shaped strings with the same digit values are the same. */
  lemma ShapedInjective(s: string, t: string)
    requires DateShaped(s) && DateShaped(t)
    requires 1000 * DigitValue(s[0]) + 100 * DigitValue(s[1]) + 10 * DigitValue(s[2]) + DigitValue(s[3])
          == 1000 * DigitValue(t[0]) + 100 * DigitValue(t[1]) + 10 * DigitValue(t[2]) + DigitValue(t[3])
    requires 10 * DigitValue(s[5]) + DigitValue(s[6]) == 10 * DigitValue(t[5]) + DigitValue(t[6])
    requires 10 * DigitValue(s[8]) + DigitValue(s[9]) == 10 * DigitValue(t[8]) + DigitValue(t[9])
    ensures s == t
  {
    assert DigitValue(s[0]) == DigitValue(t[0]) && DigitValue(s[1]) == DigitValue(t[1]);
    assert DigitValue(s[2]) == DigitValue(t[2]) && DigitValue(s[3]) == DigitValue(t[3]);
    assert DigitValue(s[5]) == DigitValue(t[5]) && DigitValue(s[8]) == DigitValue(t[8]);
    forall i | 0 <= i < 10 ensures s[i] == t[i] {
      if i != 4 && i != 7 {
        assert DigitValue(s[i]) == DigitValue(t[i]);
      }
    }
  }

  /** A string that parses is the text of the date it parses to: two
      different trade dates never name the same day. */
  lemma FormatParse(s: string)
    requires ParseDate(s).Some?
    ensures FormatDate(ParseDate(s).value) == s
  {
    var d := ParseDate(s).value;
    var t := FormatDate(d);
    ParseFormat(d);
    ShapedInjective(s, t);
  }

  /** A number per day that grows with calendar order; the comparator's
      `getTime()` difference has the same sign as the difference of these. */
  function DayOrdinal(d: Date): int {
    d.year * 372 + (d.month - 1) * 31 + (d.day - 1)
  }

  lemma DayOrdinalOrder(d1: Date, d2: Date)
    requires ValidDate(d1) && ValidDate(d2)
    ensures DayOrdinal(d1) < DayOrdinal(d2) <==> Before(d1, d2)
    ensures DayOrdinal(d1) == DayOrdinal(d2) <==> d1 == d2
  {
  }

  /** The sort key of a point: its trading day. Points whose date does not
      parse are ruled out by the callers' preconditions. */
  function TradeKey(p: PriceVolumePoint): real {
    match ParseDate(p.trade_date)
    case Some(d) => DayOrdinal(d) as real
    case None => 0.0
  }

  predicate ValidDates(data: seq<PriceVolumePoint>) {
    forall i :: 0 <= i < |data| ==> ParseDate(data[i].trade_date).Some?
  }

  function TradeDay(p: PriceVolumePoint): Date
    requires ParseDate(p.trade_date).Some?
  {
    ParseDate(p.trade_date).value
  }

  /** `[...data].sort(...)`: copy the points into a fresh array and sort
      the copy in place by trading date, oldest first. `data` is a value
      and the caller's series is left as it was. */
  method SortByTradeDate(data: seq<PriceVolumePoint>) returns (sortedData: seq<PriceVolumePoint>)
    requires ValidDates(data)
    ensures sortedData == SortBy(data, TradeKey)
    ensures multiset(sortedData) == multiset(data)
    ensures ValidDates(sortedData)
    ensures forall i, j :: 0 <= i < j < |sortedData| ==>
              !Before(TradeDay(sortedData[j]), TradeDay(sortedData[i]))
  {
    var a := new PriceVolumePoint[|data|](i requires 0 <= i < |data| => data[i]);
    assert a[..] == data;
    SortInPlace(a, TradeKey);
    sortedData := a[..];
    SortBySorted(data, TradeKey);
    SortByPermutes(data, TradeKey);
    forall i | 0 <= i < |sortedData| ensures ParseDate(sortedData[i].trade_date).Some? {
      assert sortedData[i] in multiset(data);
    }
    forall i, j | 0 <= i < j < |sortedData|
      ensures !Before(TradeDay(sortedData[j]), TradeDay(sortedData[i]))
    {
      DayOrdinalOrder(TradeDay(sortedData[j]), TradeDay(sortedData[i]));
    }
  }

  /** No two points of the series fall on the same day. */
  predicate DistinctDays(data: seq<PriceVolumePoint>) {
    forall i, j :: 0 <= i < j < |data| ==> TradeKey(data[i]) != TradeKey(data[j])
  }

  /** Two elements that occur twice in a multiset of a sequence sit at two
      different positions of it. */
  lemma {:induction false} TwoPositions<T>(s: seq<T>, x: T, y: T)
    requires multiset{x, y} <= multiset(s)
    ensures exists p, q :: 0 <= p < |s| && 0 <= q < |s| && p != q && s[p] == x && s[q] == y
  {
    assert s == [s[0]] + s[1..];
    assert multiset(s) == multiset{s[0]} + multiset(s[1..]);
    if s[0] == x {
      assert y in multiset(s[1..]);
      var q :| 0 <= q < |s[1..]| && s[1..][q] == y;
      assert s[q + 1] == y;
    } else if s[0] == y {
      assert x in multiset(s[1..]);
      var p :| 0 <= p < |s[1..]| && s[1..][p] == x;
      assert s[p + 1] == x;
    } else {
      assert multiset{x, y} <= multiset(s[1..]);
      TwoPositions(s[1..], x, y);
      var p, q :| 0 <= p < |s[1..]| && 0 <= q < |s[1..]| && p != q && s[1..][p] == x && s[1..][q] == y;
      assert s[p + 1] == x && s[q + 1] == y;
    }
  }

  /** Distinct days survive any reordering of the series. */
  lemma DistinctDaysPermute(s: seq<PriceVolumePoint>, t: seq<PriceVolumePoint>)
    requires multiset(s) == multiset(t)
    requires DistinctDays(s)
    ensures DistinctDays(t)
  {
    forall i, j | 0 <= i < j < |t| ensures TradeKey(t[i]) != TradeKey(t[j]) {
      assert t == t[..i] + [t[i]] + t[i + 1..j] + [t[j]] + t[j + 1..];
      assert multiset{t[i], t[j]} <= multiset(t);
      TwoPositions(s, t[i], t[j]);
    }
  }

  /** When no two points share a day, the order in which the service
      delivered them cannot be seen in the chart: any two deliveries of
      the same points sort to the same series. */
  lemma SortOrderIndependent(s: seq<PriceVolumePoint>, t: seq<PriceVolumePoint>)
    requires multiset(s) == multiset(t)
    requires DistinctDays(s)
    ensures SortBy(s, TradeKey) == SortBy(t, TradeKey)
  {
    var ss, st := SortBy(s, TradeKey), SortBy(t, TradeKey);
    SortBySorted(s, TradeKey);
    SortBySorted(t, TradeKey);
    SortByPermutes(s, TradeKey);
    SortByPermutes(t, TradeKey);
    DistinctDaysPermute(s, ss);
    DistinctDaysPermute(s, st);
    StrictlySortedUnique(ss, st, TradeKey);
  }

  /** The closed range `[low, high]` of the price axis. */
  datatype PriceDomain = PriceDomain(low: real, high: real)

  function Min(a: real, b: real): real { if a <= b then a else b }
  function Max(a: real, b: real): real { if a >= b then a else b }

  /** `Math.min(...closes)`, folded from the left. */
  function MinClose(s: seq<PriceVolumePoint>): real
    requires |s| > 0
  {
    if |s| == 1 then s[0].close else Min(MinClose(s[..|s| - 1]), s[|s| - 1].close)
  }

  /** `Math.max(...closes)`, folded from the left. */
  function MaxClose(s: seq<PriceVolumePoint>): real
    requires |s| > 0
  {
    if |s| == 1 then s[0].close else Max(MaxClose(s[..|s| - 1]), s[|s| - 1].close)
  }

  /** The smallest close is a close of the series and no close is smaller. */
  lemma {:induction false} MinCloseIsLeast(s: seq<PriceVolumePoint>)
    requires |s| > 0
    ensures exists i :: 0 <= i < |s| && s[i].close == MinClose(s)
    ensures forall i :: 0 <= i < |s| ==> MinClose(s) <= s[i].close
  {
    if |s| == 1 {
      assert s[0].close == MinClose(s);
    } else {
      var init := s[..|s| - 1];
      MinCloseIsLeast(init);
      var k :| 0 <= k < |init| && init[k].close == MinClose(init);
      assert s[k] == init[k];
      assert forall i :: 0 <= i < |init| ==> s[i] == init[i];
      if MinClose(init) <= s[|s| - 1].close {
        assert s[k].close == MinClose(s);
      } else {
        assert s[|s| - 1].close == MinClose(s);
      }
    }
  }

  /** The largest close is a close of the series and no close is larger. */
  lemma {:induction false} MaxCloseIsGreatest(s: seq<PriceVolumePoint>)
    requires |s| > 0
    ensures exists i :: 0 <= i < |s| && s[i].close == MaxClose(s)
    ensures forall i :: 0 <= i < |s| ==> s[i].close <= MaxClose(s)
  {
    if |s| == 1 {
      assert s[0].close == MaxClose(s);
    } else {
      var init := s[..|s| - 1];
      MaxCloseIsGreatest(init);
      var k :| 0 <= k < |init| && init[k].close == MaxClose(init);
      assert s[k] == init[k];
      assert forall i :: 0 <= i < |init| ==> s[i] == init[i];
      if MaxClose(init) >= s[|s| - 1].close {
        assert s[k].close == MaxClose(s);
      } else {
        assert s[|s| - 1].close == MaxClose(s);
      }
    }
  }

  /** The width the padding is taken from: the close range, or, for a
      flat series where that is 0, 1% of the close but at least 0.5. */
  function Spread(minClose: real, maxClose: real): real {
    if maxClose - minClose != 0.0 then maxClose - minClose
    else Max(maxClose * 0.01, 0.5)
  }

  /** The price axis range of a series: none for an empty series, else the
      close range widened by 5% of the spread on either side. */
  function DomainOf(s: seq<PriceVolumePoint>): Option<PriceDomain> {
    if |s| == 0 then None
    else
      var minClose, maxClose := MinClose(s), MaxClose(s);
      var padding := Spread(minClose, maxClose) * 0.05;
      Some(PriceDomain(minClose - padding, maxClose + padding))
  }

  /** The `priceDomain` computation: one pass over the sorted points for
      the smallest and largest close, then the padding. */
  method ComputePriceDomain(sortedData: seq<PriceVolumePoint>) returns (priceDomain: Option<PriceDomain>)
    ensures priceDomain == DomainOf(sortedData)
    ensures priceDomain.None? <==> |sortedData| == 0
  {
    if |sortedData| == 0 {
      return None;
    }
    var minClose, maxClose := sortedData[0].close, sortedData[0].close;
    var i := 1;
    while i < |sortedData|
      invariant 1 <= i <= |sortedData|
      invariant minClose == MinClose(sortedData[..i])
      invariant maxClose == MaxClose(sortedData[..i])
    {
      assert sortedData[..i + 1][..i] == sortedData[..i];
      minClose := Min(minClose, sortedData[i].close);
      maxClose := Max(maxClose, sortedData[i].close);
      i := i + 1;
    }
    assert sortedData[..i] == sortedData;
    var diff := maxClose - minClose;
    if diff == 0.0 {
      diff := Max(maxClose * 0.01, 0.5);
    }
    var padding := diff * 0.05;
    priceDomain := Some(PriceDomain(minClose - padding, maxClose + padding));
  }

  /** Every close of the series lies strictly inside the axis range. */
  lemma DomainContains(s: seq<PriceVolumePoint>)
    requires |s| > 0
    ensures DomainOf(s).Some?
    ensures forall i :: 0 <= i < |s| ==>
              DomainOf(s).value.low < s[i].close < DomainOf(s).value.high
  {
    MinCloseIsLeast(s);
    MaxCloseIsGreatest(s);
  }

  /** The range is never empty, even for a flat series, and the padding
      is the same on both sides of the close range. */
  lemma DomainShape(s: seq<PriceVolumePoint>)
    requires |s| > 0
    ensures DomainOf(s).Some?
    ensures DomainOf(s).value.high - DomainOf(s).value.low > 0.0
    ensures MinClose(s) - DomainOf(s).value.low == DomainOf(s).value.high - MaxClose(s)
    ensures DomainOf(s).value.high - DomainOf(s).value.low
         == MaxClose(s) - MinClose(s) + 0.1 * Spread(MinClose(s), MaxClose(s))
  {
    MinCloseIsLeast(s);
    MaxCloseIsGreatest(s);
    assert MinClose(s) <= MaxClose(s) by {
      var k :| 0 <= k < |s| && s[k].close == MinClose(s);
    }
  }

  /** The range depends only on which points there are, not their order,
      so computing it over the sorted copy gives the range of the input. */
  lemma DomainOfPermutation(s: seq<PriceVolumePoint>, t: seq<PriceVolumePoint>)
    requires multiset(s) == multiset(t)
    ensures DomainOf(s) == DomainOf(t)
  {
    assert |s| == |multiset(s)| == |t|;
    if |s| > 0 {
      MinCloseIsLeast(s);
      MinCloseIsLeast(t);
      MaxCloseIsGreatest(s);
      MaxCloseIsGreatest(t);
      var i :| 0 <= i < |s| && s[i].close == MinClose(s);
      var j :| 0 <= j < |t| && t[j].close == MinClose(t);
      assert s[i] in multiset(t) && t[j] in multiset(s);
      var i' :| 0 <= i' < |s| && s[i'].close == MaxClose(s);
      var j' :| 0 <= j' < |t| && t[j'].close == MaxClose(t);
      assert s[i'] in multiset(t) && t[j'] in multiset(s);
    }
  }

  /** A series whose every close is 100 gets the range [99.95, 100.05]. */
  lemma FlatSeriesDomain(s: seq<PriceVolumePoint>)
    requires |s| > 0
    requires forall i :: 0 <= i < |s| ==> s[i].close == 100.0
    ensures DomainOf(s) == Some(PriceDomain(99.95, 100.05))
  {
    MinCloseIsLeast(s);
    MaxCloseIsGreatest(s);
  }

  /** The chart's preparation of its input: the sorted copy, and the price
      range computed over it. */
  method PrepareChart(data: seq<PriceVolumePoint>)
    returns (sortedData: seq<PriceVolumePoint>, priceDomain: Option<PriceDomain>)
    requires ValidDates(data)
    ensures sortedData == SortBy(data, TradeKey)
    ensures priceDomain == DomainOf(data)
    ensures priceDomain.None? <==> |data| == 0
  {
    sortedData := SortByTradeDate(data);
    priceDomain := ComputePriceDomain(sortedData);
    DomainOfPermutation(sortedData, data);
  }

  /** `formatAmountToYi`: thousands of yuan shown as hundreds of millions
      of yuan (亿), two decimals. */
  function FormatAmountToYi(amountInThousand: real): (r: real)
    ensures RoundsTo(amountInThousand / 100000.0, 2, r)
    ensures 200.0 * Abs(r * 100000.0 - amountInThousand) <= 100000.0
  {
    var yi := amountInThousand / 100000.0;
    assert Scale(2) == 100.0;
    ToFixedRounds(yi, 2);
    assert Abs(ToFixed(yi, 2) * 100000.0 - amountInThousand) == Abs(ToFixed(yi, 2) - yi) * 100000.0;
    ToFixed(yi, 2)
  }

  /** 100 000 thousand yuan is one 亿, and nothing is nothing. */
  lemma FormatAmountToYiExamples()
    ensures FormatAmountToYi(100000.0) == 1.0
    ensures FormatAmountToYi(0.0) == 0.0
  {
    assert Scale(2) == 100.0;
    ToFixedExact(1.0, 2, 100);
    ToFixedExact(0.0, 2, 0);
  }

  /** The name the volume bars carry in the chart. */
  const VolumeSeriesName: string := "成交量"

  /** What the tooltip shows for one series: the volume bars also show the
      day's traded amount in 亿, the other series show their own name. */
  datatype TooltipRow =
    | VolumeWithAmount(value: real, amountYi: real)
    | Named(value: real, name: string)

  /** The tooltip formatter: for the volume series the amount comes from
      the hovered point, and a point without one counts as 0. */
  function TooltipFor(value: real, name: string, amount: Option<real>): (r: TooltipRow)
    ensures r.value == value
    ensures r.VolumeWithAmount? <==> name == VolumeSeriesName
    ensures r.Named? ==> r.name == name
    ensures r.VolumeWithAmount? ==> r.amountYi == FormatAmountToYi(amount.GetOr(0.0))
  {
    if name == VolumeSeriesName then
      VolumeWithAmount(value, FormatAmountToYi(amount.GetOr(0.0)))
    else Named(value, name)
  }

  /** A hovered point without an amount shows an amount of 0 亿. */
  lemma TooltipWithoutAmount(value: real)
    ensures TooltipFor(value, VolumeSeriesName, None) == VolumeWithAmount(value, 0.0)
  {
    FormatAmountToYiExamples();
  }

  /** The axis tick: `value.slice(5)`, everything after the fifth
      character, or nothing for a shorter string. */
  function TickLabel(value: string): (r: string)
    ensures |value| >= 5 ==> value == value[..5] + r
    ensures |value| < 5 ==> r == ""
  {
    if |value| < 5 then "" else value[5..]
  }

  /** For a trade date the tick is its month and day, `MM-DD`. */
  lemma TickLabelOfDate(s: string)
    requires ParseDate(s).Some?
    ensures TickLabel(s) == FormatDate(ParseDate(s).value)[5..]
    ensures |TickLabel(s)| == 5 && TickLabel(s)[2] == '-'
    ensures 10 * DigitValue(TickLabel(s)[0]) + DigitValue(TickLabel(s)[1]) == ParseDate(s).value.month
    ensures 10 * DigitValue(TickLabel(s)[3]) + DigitValue(TickLabel(s)[4]) == ParseDate(s).value.day
  {
    FormatParse(s);
  }
}
