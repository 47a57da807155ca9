// Disjoint holding periods and their returns.
module PeriodReturns {
  import opened Options
  import opened Decimals

  type Ticker = string
  type Date = int

  // --- prices --------------------------------------------------------------------------------

  // A ticker's closes by strictly increasing date, all positive.
  datatype Series = Series(dates: seq<Date>, closes: seq<real>) {
    predicate Valid() {
      && |dates| == |closes|
      && (forall i, j :: 0 <= i < j < |dates| ==> dates[i] < dates[j])
      && (forall i :: 0 <= i < |closes| ==> closes[i] > 0.0)
    }
  }

  type SeriesBook = map<Ticker, Series>

  // Looked up under the upper-case form of a ticker.
  datatype PriceBook = PriceBook(series: SeriesBook, upper: Ticker -> Ticker)

  predicate ValidBook(prices: SeriesBook) {
    forall t :: t in prices ==> prices[t].Valid()
  }

  // A cached row; a missing or zero adjusted close falls back to the plain close.
  datatype Bar = Bar(ticker: Ticker, day: Date, adjusted: Option<real>, close: Option<real>)

  function BarPrice(b: Bar): Option<real> {
    if b.adjusted.Some? && b.adjusted.value != 0.0 then b.adjusted else b.close
  }

  // Rows come ordered by ticker and day, freshest fetch first.
  predicate BarsOrdered(rows: seq<Bar>) {
    forall i, j :: 0 <= i < j < |rows| && rows[i].ticker == rows[j].ticker ==> rows[i].day <= rows[j].day
  }

  // One row taken into the book, unless its day is already there or it carries no positive price.
  function AddBar(prices: SeriesBook, b: Bar): SeriesBook {
    var s := if b.ticker in prices then prices[b.ticker] else Series([], []);
    if s.dates != [] && s.dates[|s.dates| - 1] == b.day then prices[b.ticker := s]
    else
      match BarPrice(b)
      case Some(px) =>
        if px <= 0.0 then prices[b.ticker := s]
        else prices[b.ticker := Series(s.dates + [b.day], s.closes + [px])]
      case None => prices[b.ticker := s]
  }

  predicate HasPrice(b: Bar) {
    BarPrice(b).Some? && BarPrice(b).value > 0.0
  }

  predicate PricesDay(b: Bar, t: Ticker, d: Date) {
    b.ticker == t && b.day == d && HasPrice(b)
  }

  // The freshest usable price of a ticker on a day: the first of its rows that carries one.
  ghost predicate FirstPriced(rows: seq<Bar>, n: nat, t: Ticker, d: Date, px: real)
    requires n <= |rows|
  {
    exists i :: 0 <= i < n && PricesDay(rows[i], t, d) && BarPrice(rows[i]).value == px
                && forall j :: 0 <= j < i ==> !PricesDay(rows[j], t, d)
  }

  ghost predicate Quotes(prices: SeriesBook, t: Ticker, d: Date, px: real) {
    && t in prices
    && exists k :: 0 <= k < |prices[t].dates| && k < |prices[t].closes|
                   && prices[t].dates[k] == d && prices[t].closes[k] == px
  }

  ghost predicate Takes(prices: SeriesBook, rows: seq<Bar>, n: nat)
    requires n <= |rows|
  {
    forall t, d, px :: Quotes(prices, t, d, px) <==> FirstPriced(rows, n, t, d, px)
  }

  // The book holds, for every ticker and day, exactly the first usable price, in strictly increasing dates.
  method BuildPriceBook(rows: seq<Bar>, upper: Ticker -> Ticker) returns (prices: PriceBook)
    requires BarsOrdered(rows)
    ensures ValidBook(prices.series) && Takes(prices.series, rows, |rows|) && prices.upper == upper
    ensures forall t, d, px :: Quotes(prices.series, t, d, px) ==> TotalReturnPrice(rows, t, d, px)
  {
    hide Quotes, FirstPriced;
    var series: SeriesBook := map[];
    NothingTaken(rows);
    for i := 0 to |rows|
      invariant ValidBook(series) && Takes(series, rows, i)
    {
      TakesOneMore(series, rows, i);
      series := AddBar(series, rows[i]);
    }
    prices := PriceBook(series, upper);
    QuotesAreTotalReturn(series, rows);
  }

  // The price comes from a row of the day, and is its adjusted close where that is present and not zero.
  ghost predicate TotalReturnPrice(rows: seq<Bar>, t: Ticker, d: Date, px: real) {
    px > 0.0
    && exists i :: 0 <= i < |rows| && rows[i].ticker == t && rows[i].day == d
                   && if rows[i].adjusted.Some? && rows[i].adjusted.value != 0.0 then px == rows[i].adjusted.value
                      else rows[i].close == Some(px)
  }

  lemma QuotesAreTotalReturn(series: SeriesBook, rows: seq<Bar>)
    requires Takes(series, rows, |rows|)
    ensures forall t, d, px :: Quotes(series, t, d, px) ==> TotalReturnPrice(rows, t, d, px)
  {
    hide Quotes;
    forall t, d, px | Quotes(series, t, d, px)
      ensures TotalReturnPrice(rows, t, d, px)
    {
      assert FirstPriced(rows, |rows|, t, d, px);
    }
  }

  lemma NothingTaken(rows: seq<Bar>)
    ensures Takes(map[], rows, 0)
  {}

  lemma {:induction false} FirstExists(rows: seq<Bar>, n: nat, t: Ticker, d: Date, j: nat) returns (px: real)
    requires n <= |rows| && j < n && PricesDay(rows[j], t, d)
    ensures FirstPriced(rows, n, t, d, px)
  {
    hide PricesDay;
    if i :| 0 <= i < j && PricesDay(rows[i], t, d) {
      px := FirstExists(rows, n, t, d, i);
    } else {
      PricedDay(rows[j], t, d);
      px := BarPrice(rows[j]).value;
    }
  }

  lemma PricedDay(b: Bar, t: Ticker, d: Date)
    requires PricesDay(b, t, d)
    ensures HasPrice(b)
  {}

  // No row so far is later than the next one of its ticker, so a day is in the book only as its last.
  lemma DayIsLast(prices: SeriesBook, rows: seq<Bar>, i: nat)
    requires BarsOrdered(rows) && i < |rows| && ValidBook(prices) && Takes(prices, rows, i)
    requires rows[i].ticker in prices
    ensures var s := prices[rows[i].ticker];
            (forall k :: 0 <= k < |s.dates| ==> s.dates[k] <= rows[i].day)
            && (rows[i].day in s.dates <==> s.dates != [] && s.dates[|s.dates| - 1] == rows[i].day)
  {
    var t, s := rows[i].ticker, prices[rows[i].ticker];
    forall k | 0 <= k < |s.dates|
      ensures s.dates[k] <= rows[i].day
    {
      assert Quotes(prices, t, s.dates[k], s.closes[k]);
    }
  }

  lemma DayTaken(prices: SeriesBook, rows: seq<Bar>, i: nat, t: Ticker, d: Date)
    requires i <= |rows| && ValidBook(prices) && Takes(prices, rows, i)
    ensures (t in prices && d in prices[t].dates) <==> exists j :: 0 <= j < i && PricesDay(rows[j], t, d)
  {
    hide PricesDay;
    if j :| 0 <= j < i && PricesDay(rows[j], t, d) {
      var px := FirstExists(rows, i, t, d, j);
      assert Quotes(prices, t, d, px);
    }
    if t in prices && d in prices[t].dates {
      var k :| 0 <= k < |prices[t].dates| && prices[t].dates[k] == d;
      assert Quotes(prices, t, d, prices[t].closes[k]);
    }
  }

  predicate DayIsThere(prices: SeriesBook, t: Ticker, d: Date) {
    t in prices && prices[t].dates != [] && prices[t].dates[|prices[t].dates| - 1] == d
  }

  // The series of one ticker after a row: its own price at the end, unless its day is there already.
  lemma AddedSeries(prices: SeriesBook, b: Bar, t: Ticker)
    ensures t in prices || t == b.ticker <==> t in AddBar(prices, b)
    ensures t in AddBar(prices, b) ==>
              var s := if t in prices then prices[t] else Series([], []);
              AddBar(prices, b)[t] == if PricesDay(b, t, b.day) && !DayIsThere(prices, t, b.day)
                                      then Series(s.dates + [b.day], s.closes + [BarPrice(b).value]) else s
  {}

  // The row that is taken in extends the quotes by its own price, unless its day is there already.
  lemma AddQuotes(prices: SeriesBook, b: Bar, t: Ticker, d: Date, px: real)
    requires ValidBook(prices)
    ensures Quotes(AddBar(prices, b), t, d, px) <==>
              Quotes(prices, t, d, px)
              || (PricesDay(b, t, d) && px == BarPrice(b).value && !DayIsThere(prices, t, d))
  {
    hide AddBar, DayIsThere, BarPrice;
    var more := AddBar(prices, b);
    AddedSeries(prices, b, t);
    if t in prices && Quotes(prices, t, d, px) {
      var k :| 0 <= k < |prices[t].dates| && prices[t].dates[k] == d && prices[t].closes[k] == px;
      assert more[t].dates[k] == d && more[t].closes[k] == px;
    }
    if PricesDay(b, t, d) && px == BarPrice(b).value && !DayIsThere(prices, t, d) {
      var n := |more[t].dates| - 1;
      assert more[t].dates[n] == d && more[t].closes[n] == px;
    }
  }

  lemma FirstOfMore(rows: seq<Bar>, i: nat, t: Ticker, d: Date, px: real)
    requires i < |rows|
    ensures FirstPriced(rows, i + 1, t, d, px) <==>
              FirstPriced(rows, i, t, d, px)
              || (PricesDay(rows[i], t, d) && px == BarPrice(rows[i]).value
                  && !exists j :: 0 <= j < i && PricesDay(rows[j], t, d))
  {}

  lemma TakesOneMore(prices: SeriesBook, rows: seq<Bar>, i: nat)
    requires BarsOrdered(rows) && i < |rows| && ValidBook(prices) && Takes(prices, rows, i)
    ensures ValidBook(AddBar(prices, rows[i])) && Takes(AddBar(prices, rows[i]), rows, i + 1)
  {
    hide Quotes, FirstPriced, PricesDay, BarsOrdered, BarPrice;
    var b := rows[i];
    if b.ticker in prices {
      DayIsLast(prices, rows, i);
    }
    forall t, d, px
      ensures Quotes(AddBar(prices, b), t, d, px) <==> FirstPriced(rows, i + 1, t, d, px)
    {
      AddQuotes(prices, b, t, d, px);
      FirstOfMore(rows, i, t, d, px);
      if t == b.ticker && d == b.day {
        DayTaken(prices, rows, i, t, d);
      } else {
        OtherDay(b, t, d);
      }
    }
  }

  lemma OtherDay(b: Bar, t: Ticker, d: Date)
    requires t != b.ticker || d != b.day
    ensures !PricesDay(b, t, d)
  {}

  // The last close on or before a day.
  function CloseOnOrBefore(prices: PriceBook, t: Ticker, on: Date): Option<real> {
    var key, series := prices.upper(t), prices.series;
    if key in series && series[key].Valid() then LastClose(series[key], |series[key].dates|, on) else None
  }

  // The same among the first n closes.
  function LastClose(s: Series, n: nat, on: Date): (r: Option<real>)
    requires n <= |s.dates| == |s.closes|
    ensures r.None? ==> forall i :: 0 <= i < n ==> s.dates[i] > on
    ensures r.Some? ==> exists i :: 0 <= i < n && s.dates[i] <= on && r.value == s.closes[i]
                                    && forall j :: i < j < n ==> s.dates[j] > on
  {
    if n == 0 then None
    else if s.dates[n - 1] <= on then Some(s.closes[n - 1])
    else LastClose(s, n - 1, on)
  }

  // Binary search for the insertion point to the right of `on`.
  method BisectRight(dates: seq<Date>, on: Date) returns (k: nat)
    requires forall i, j :: 0 <= i < j < |dates| ==> dates[i] < dates[j]
    ensures k <= |dates|
    ensures forall i :: 0 <= i < |dates| ==> (i < k <==> dates[i] <= on)
  {
    var hi := |dates|;
    k := 0;
    while k < hi
      invariant 0 <= k <= hi <= |dates|
      invariant forall i :: 0 <= i < k ==> dates[i] <= on
      invariant forall i :: hi <= i < |dates| ==> on < dates[i]
    {
      var mid := (k + hi) / 2;
      if on < dates[mid] {
        hi := mid;
      } else {
        k := mid + 1;
      }
    }
  }

  method LookUp(prices: PriceBook, t: Ticker, on: Date) returns (r: Option<real>)
    requires ValidBook(prices.series)
    ensures r == CloseOnOrBefore(prices, t, on)
  {
    var key := prices.upper(t);
    if key !in prices.series {
      return None;
    }
    var s := prices.series[key];
    var k := BisectRight(s.dates, on);
    LastCloseAt(s, |s.dates|, on, k);
    r := if k == 0 then None else Some(s.closes[k - 1]);
  }

  lemma {:induction false} LastCloseAt(s: Series, n: nat, on: Date, k: nat)
    requires s.Valid() && k <= n <= |s.dates| && forall i :: 0 <= i < |s.dates| ==> (i < k <==> s.dates[i] <= on)
    ensures LastClose(s, n, on) == if k == 0 then None else Some(s.closes[k - 1])
  {
    if n > 0 && s.dates[n - 1] > on {
      LastCloseAt(s, n - 1, on, k);
    }
  }

  // --- books and periods ---------------------------------------------------------------------

  // A signed fraction of net asset value per ticker, as stored: one that does not parse counts as none.
  datatype Leg = Leg(ticker: Ticker, stored: Option<real>) {
    function Weight(): real {
      if stored.Some? then stored.value else 0.0
    }
  }

  datatype Cycle = Cycle(asOf: Date, book: seq<Leg>)

  datatype Period = Period(start: Date, end: Date, ret: real)

  predicate Priced(prices: PriceBook, x: Leg, start: Date, end: Date) {
    CloseOnOrBefore(prices, x.ticker, start).Some? && CloseOnOrBefore(prices, x.ticker, end).Some?
    && CloseOnOrBefore(prices, x.ticker, start).value > 0.0
  }

  // A weight times a price move.
  function Move(w: real, p0: real, p1: real): real
    requires p0 > 0.0
  {
    w * (p1 / p0 - 1.0)
  }

  function LegReturn(prices: PriceBook, x: Leg, start: Date, end: Date): real
    requires Priced(prices, x, start, end)
  {
    Move(x.Weight(), CloseOnOrBefore(prices, x.ticker, start).value, CloseOnOrBefore(prices, x.ticker, end).value)
  }

  // The weighted return of the legs that can be priced.
  function LegsReturn(prices: PriceBook, legs: seq<Leg>, start: Date, end: Date): real {
    if legs == [] then 0.0
    else
      var x := legs[|legs| - 1];
      LegsReturn(prices, legs[..|legs| - 1], start, end)
      + if x.Weight() != 0.0 && Priced(prices, x, start, end) then LegReturn(prices, x, start, end) else 0.0
  }

  predicate Empty(legs: seq<Leg>) {
    forall i :: 0 <= i < |legs| ==> legs[i].Weight() == 0.0
  }

  predicate SomePriced(prices: PriceBook, legs: seq<Leg>, start: Date, end: Date) {
    exists i :: 0 <= i < |legs| && legs[i].Weight() != 0.0 && Priced(prices, legs[i], start, end)
  }

  // All cash returns zero; a book none of whose legs can be priced has no return.
  function BookReturn(prices: PriceBook, legs: seq<Leg>, start: Date, end: Date): Option<real> {
    if Empty(legs) then Some(0.0)
    else if SomePriced(prices, legs, start, end) then Some(LegsReturn(prices, legs, start, end))
    else None
  }

  // Exactly when a book has a return: it has no weight at all, or some leg with a weight has a close on or before
  // either end and a positive one before the start.
  lemma HasReturnExactly(prices: PriceBook, legs: seq<Leg>, start: Date, end: Date)
    ensures BookReturn(prices, legs, start, end).Some?
            <==> (forall i :: 0 <= i < |legs| ==> legs[i].stored.None? || legs[i].stored.value == 0.0)
                 || exists i :: 0 <= i < |legs| && legs[i].stored.Some? && legs[i].stored.value != 0.0
                                && Priced(prices, legs[i], start, end)
  {
    hide Priced;
    if Empty(legs) {
      forall i | 0 <= i < |legs|
        ensures legs[i].stored.None? || legs[i].stored.value == 0.0
      {
        assert legs[i].Weight() == 0.0;
      }
    }
    if SomePriced(prices, legs, start, end) {
      var i :| 0 <= i < |legs| && legs[i].Weight() != 0.0 && Priced(prices, legs[i], start, end);
      assert legs[i].stored.Some?;
    }
    if i :| 0 <= i < |legs| && legs[i].stored.Some? && legs[i].stored.value != 0.0
            && Priced(prices, legs[i], start, end) {
      assert legs[i].Weight() != 0.0;
    }
  }

  // Tickers are looked up by their upper-case form.
  lemma FoldedAlike(prices: PriceBook, t: Ticker, u: Ticker, on: Date)
    requires prices.upper(t) == prices.upper(u)
    ensures CloseOnOrBefore(prices, t, on) == CloseOnOrBefore(prices, u, on)
  {}

  method ComputeBookReturn(book: seq<Leg>, prices: PriceBook, start: Date, end: Date) returns (r: Option<real>)
    requires ValidBook(prices.series)
    ensures r == BookReturn(prices, book, start, end)
  {
    hide CloseOnOrBefore;
    var anyLeg := false;
    var total := 0.0;
    var priced := false;
    for i := 0 to |book|
      invariant anyLeg <==> !Empty(book[..i])
      invariant total == LegsReturn(prices, book[..i], start, end)
      invariant priced <==> SomePriced(prices, book[..i], start, end)
    {
      assert book[..i + 1][..i] == book[..i];
      var x := book[i];
      StepFacts(prices, book, i, start, end);
      if x.Weight() == 0.0 {
        continue;
      }
      anyLeg := true;
      var p0 := LookUp(prices, x.ticker, start);
      var p1 := LookUp(prices, x.ticker, end);
      if p0.None? || p1.None? || p0.value <= 0.0 {
        continue;
      }
      total := total + LegReturn(prices, x, start, end);
      priced := true;
    }
    assert book[..|book|] == book;
    r := if !anyLeg then Some(0.0) else if priced then Some(total) else None;
  }

  lemma StepFacts(prices: PriceBook, book: seq<Leg>, i: nat, start: Date, end: Date)
    requires i < |book|
    ensures Empty(book[..i + 1]) <==> Empty(book[..i]) && book[i].Weight() == 0.0
    ensures SomePriced(prices, book[..i + 1], start, end) <==>
              SomePriced(prices, book[..i], start, end)
              || (book[i].Weight() != 0.0 && Priced(prices, book[i], start, end))
  {
    hide Priced;
    var more, less := book[..i + 1], book[..i];
    if SomePriced(prices, less, start, end) {
      var k :| 0 <= k < i && less[k].Weight() != 0.0 && Priced(prices, less[k], start, end);
      assert more[k] == less[k];
    }
    assert more[i] == book[i];
    assert forall k :: 0 <= k < i ==> more[k] == less[k];
  }

  // --- one book per date ---------------------------------------------------------------------

  predicate StrictlyOrdered(cycles: seq<Cycle>) {
    forall i, j :: 0 <= i < j < |cycles| ==> cycles[i].asOf < cycles[j].asOf
  }

  // The last cycle written for a date wins; the result is in date order.
  function PutCycle(sorted: seq<Cycle>, c: Cycle): seq<Cycle> {
    if sorted == [] then [c]
    else
      var n := |sorted| - 1;
      if sorted[n].asOf < c.asOf then sorted + [c]
      else if sorted[n].asOf == c.asOf then sorted[..n] + [c]
      else PutCycle(sorted[..n], c) + [sorted[n]]
  }

  function Dedupe(cycles: seq<Cycle>): seq<Cycle> {
    if cycles == [] then [] else PutCycle(Dedupe(cycles[..|cycles| - 1]), cycles[|cycles| - 1])
  }

  lemma {:induction false} PutKeepsOrder(sorted: seq<Cycle>, c: Cycle)
    requires StrictlyOrdered(sorted)
    ensures StrictlyOrdered(PutCycle(sorted, c))
    ensures forall x :: x in PutCycle(sorted, c) <==> x == c || (x in sorted && x.asOf != c.asOf)
  {
    if sorted != [] {
      var n := |sorted| - 1;
      assert sorted == sorted[..n] + [sorted[n]];
      if sorted[n].asOf > c.asOf {
        PutKeepsOrder(sorted[..n], c);
        var r := PutCycle(sorted[..n], c);
        forall i | 0 <= i < |r|
          ensures r[i].asOf < sorted[n].asOf
        {
          assert r[i] in r;
        }
      }
    }
  }

  // Exactly the last cycle of every date survives, in date order.
  lemma {:induction false} DedupeKeepsLast(cycles: seq<Cycle>)
    ensures StrictlyOrdered(Dedupe(cycles))
    ensures forall x :: x in Dedupe(cycles) <==>
              exists i :: 0 <= i < |cycles| && cycles[i] == x
                          && forall j :: i < j < |cycles| ==> cycles[j].asOf != x.asOf
  {
    hide PutCycle;
    if cycles != [] {
      var n := |cycles| - 1;
      var rest, c := cycles[..n], cycles[n];
      DedupeKeepsLast(rest);
      PutKeepsOrder(Dedupe(rest), c);
      forall x
        ensures x in Dedupe(cycles) <==> IsLast(cycles, x)
      {
        LastOfMore(rest, c, x);
        assert cycles == rest + [c];
        assert x in Dedupe(rest) <==> IsLast(rest, x);
      }
    }
  }

  ghost predicate IsLast(cycles: seq<Cycle>, x: Cycle) {
    exists i :: 0 <= i < |cycles| && cycles[i] == x && forall j :: i < j < |cycles| ==> cycles[j].asOf != x.asOf
  }

  lemma LastOfMore(rest: seq<Cycle>, c: Cycle, x: Cycle)
    ensures IsLast(rest + [c], x) <==> x == c || (IsLast(rest, x) && x.asOf != c.asOf)
  {
    var more := rest + [c];
    if IsLast(rest, x) && x.asOf != c.asOf {
      var i :| 0 <= i < |rest| && rest[i] == x && forall j :: i < j < |rest| ==> rest[j].asOf != x.asOf;
      assert more[i] == x;
    }
    if IsLast(more, x) && x != c {
      var i :| 0 <= i < |more| && more[i] == x && forall j :: i < j < |more| ==> more[j].asOf != x.asOf;
      assert more[|rest|] == c;
      assert forall j :: i < j < |rest| ==> more[j] == rest[j];
      assert rest[i] == x;
    }
    assert more[|rest|] == c;
  }

  // --- disjoint periods ----------------------------------------------------------------------

  function EndOf(cycles: seq<Cycle>, i: nat, endDate: Date): Date
    requires i < |cycles|
  {
    if i + 1 < |cycles| then cycles[i + 1].asOf else endDate
  }

  function PeriodOf(prices: PriceBook, cycles: seq<Cycle>, i: nat, endDate: Date): Option<Period>
    requires i < |cycles|
  {
    var start, end := cycles[i].asOf, EndOf(cycles, i, endDate);
    if end <= start then None
    else
      match BookReturn(prices, cycles[i].book, start, end)
      case Some(r) => Some(Period(start, end, r))
      case None => None
  }

  function Periods(prices: PriceBook, cycles: seq<Cycle>, n: nat, endDate: Date): seq<Period>
    requires n <= |cycles|
  {
    if n == 0 then []
    else
      Periods(prices, cycles, n - 1, endDate)
      + match PeriodOf(prices, cycles, n - 1, endDate) case Some(p) => [p] case None => []
  }

  method ComputePeriods(targets: seq<Cycle>, prices: PriceBook, endDate: Date) returns (out: seq<Period>)
    requires ValidBook(prices.series)
    ensures var cycles := Dedupe(targets); out == Periods(prices, cycles, |cycles|, endDate)
  {
    var cycles := Dedupe(targets);
    out := [];
    for i := 0 to |cycles|
      invariant out == Periods(prices, cycles, i, endDate)
    {
      var start := cycles[i].asOf;
      var end := if i + 1 < |cycles| then cycles[i + 1].asOf else endDate;
      if end <= start {
        continue;
      }
      var ret := ComputeBookReturn(cycles[i].book, prices, start, end);
      if ret.None? {
        continue;
      }
      out := out + [Period(start, end, ret.value)];
    }
  }

  // In order, never overlapping, and inside the range.
  ghost predicate DisjointWithin(ps: seq<Period>, from: Date, to: Date) {
    && (forall i :: 0 <= i < |ps| ==> from <= ps[i].start < ps[i].end <= to)
    && (forall i, j :: 0 <= i < j < |ps| ==> ps[i].end <= ps[j].start)
  }

  lemma DisjointGrows(ps: seq<Period>, from: Date, mid: Date, p: Period, to: Date)
    requires DisjointWithin(ps, from, mid) && from <= mid <= p.start < p.end <= to
    ensures DisjointWithin(ps + [p], from, to)
  {}

  lemma DisjointWidens(ps: seq<Period>, from: Date, mid: Date, to: Date)
    requires DisjointWithin(ps, from, mid) && mid <= to
    ensures DisjointWithin(ps, from, to)
  {}

  // The periods of the first n cycles never overlap and lie between the first cycle and the next one, or the
  // end date.
  lemma {:induction false} PeriodsAreDisjoint(prices: PriceBook, cycles: seq<Cycle>, n: nat, endDate: Date)
    requires StrictlyOrdered(cycles) && 0 < n <= |cycles|
    ensures DisjointWithin(Periods(prices, cycles, n, endDate), cycles[0].asOf,
                           if EndOf(cycles, n - 1, endDate) >= cycles[n - 1].asOf then EndOf(cycles, n - 1, endDate)
                           else cycles[n - 1].asOf)
  {
    hide BookReturn, DisjointWithin;
    var ps := Periods(prices, cycles, n - 1, endDate);
    if n == 1 {
      assert DisjointWithin(ps, cycles[0].asOf, cycles[0].asOf) by {
        NoPeriods(cycles[0].asOf);
      }
    } else {
      PeriodsAreDisjoint(prices, cycles, n - 1, endDate);
    }
    var end := EndOf(cycles, n - 1, endDate);
    if PeriodOf(prices, cycles, n - 1, endDate).Some? {
      DisjointGrows(ps, cycles[0].asOf, cycles[n - 1].asOf, PeriodOf(prices, cycles, n - 1, endDate).value, end);
    } else {
      assert Periods(prices, cycles, n, endDate) == ps;
      DisjointWidens(ps, cycles[0].asOf, cycles[n - 1].asOf,
                     if end >= cycles[n - 1].asOf then end else cycles[n - 1].asOf);
    }
  }

  lemma NoPeriods(d: Date)
    ensures DisjointWithin([], d, d)
  {}

  // If no interval is dropped, the periods tile the whole range without a gap.
  lemma {:induction false} PeriodsTile(prices: PriceBook, cycles: seq<Cycle>, n: nat, endDate: Date)
    requires StrictlyOrdered(cycles) && 0 < n <= |cycles|
    requires forall i :: 0 <= i < n ==> PeriodOf(prices, cycles, i, endDate).Some?
    ensures var ps := Periods(prices, cycles, n, endDate);
            && |ps| == n
            && ps[0].start == cycles[0].asOf
            && (forall i :: 0 <= i < n - 1 ==> ps[i].end == ps[i + 1].start)
            && ps[n - 1].end == EndOf(cycles, n - 1, endDate)
            && ps[n - 1].start == cycles[n - 1].asOf
  {
    hide BookReturn;
    if n > 1 {
      PeriodsTile(prices, cycles, n - 1, endDate);
    }
  }

  // --- the chained series is a real net asset value ------------------------------------------

  function Growth(ps: seq<Period>): real {
    if ps == [] then 1.0 else Times(Growth(ps[..|ps| - 1]), 1.0 + ps[|ps| - 1].ret)
  }

  // A share-level simulation of one period: put each priced leg's weight of the value into shares at the
  // start, keep the remainder in cash, and value everything at the end.
  function Shares(w: real, value: real, p0: real): real
    requires p0 > 0.0
  {
    w * value / p0
  }

  function SharesOf(prices: PriceBook, x: Leg, value: real, start: Date): real
    requires CloseOnOrBefore(prices, x.ticker, start).Some? && CloseOnOrBefore(prices, x.ticker, start).value > 0.0
  {
    Shares(x.Weight(), value, CloseOnOrBefore(prices, x.ticker, start).value)
  }

  function Invested(prices: PriceBook, legs: seq<Leg>, value: real, start: Date, end: Date, at: Date): real
    requires at == start || at == end
  {
    if legs == [] then 0.0
    else
      var x := legs[|legs| - 1];
      Invested(prices, legs[..|legs| - 1], value, start, end, at)
      + if x.Weight() != 0.0 && Priced(prices, x, start, end) then
          Times(SharesOf(prices, x, value, start), CloseOnOrBefore(prices, x.ticker, at).value)
        else 0.0
  }

  // Value at the end: the shares at end prices, and the cash that was not put into shares.
  function Rebalanced(prices: PriceBook, legs: seq<Leg>, value: real, start: Date, end: Date): real {
    Invested(prices, legs, value, start, end, end) + (value - Invested(prices, legs, value, start, end, start))
  }

  lemma SharesEarnTheLeg(w: real, value: real, p0: real, p1: real)
    requires p0 > 0.0
    ensures Times(Shares(w, value, p0), p1) - Times(Shares(w, value, p0), p0) == Times(value, Move(w, p0, p1))
  {
    var s := w * value / p0;
    assert s * p0 == w * value;
    var q := p1 / p0;
    assert q * p0 == p1;
    assert s * p1 == s * p0 * q;
    assert w * value * q - w * value == value * (w * (q - 1.0));
  }

  lemma {:induction false} InvestedEarns(prices: PriceBook, legs: seq<Leg>, value: real, start: Date, end: Date)
    ensures Invested(prices, legs, value, start, end, end) - Invested(prices, legs, value, start, end, start)
            == Times(value, LegsReturn(prices, legs, start, end))
  {
    hide Times, CloseOnOrBefore;
    if legs == [] {
      TimesNothing(value);
    } else {
      var n := |legs| - 1;
      var x := legs[n];
      InvestedEarns(prices, legs[..n], value, start, end);
      if x.Weight() != 0.0 && Priced(prices, x, start, end) {
        LegEarns(prices, x, value, start, end);
        TimesSum(value, LegsReturn(prices, legs, start, end), LegsReturn(prices, legs[..n], start, end),
                 LegReturn(prices, x, start, end));
      }
    }
  }

  lemma LegEarns(prices: PriceBook, x: Leg, value: real, start: Date, end: Date)
    requires Priced(prices, x, start, end)
    ensures Times(SharesOf(prices, x, value, start), CloseOnOrBefore(prices, x.ticker, end).value)
            - Times(SharesOf(prices, x, value, start), CloseOnOrBefore(prices, x.ticker, start).value)
            == Times(value, LegReturn(prices, x, start, end))
  {
    hide Times, CloseOnOrBefore, Shares, Move;
    SharesEarnTheLeg(x.Weight(), value, CloseOnOrBefore(prices, x.ticker, start).value,
                     CloseOnOrBefore(prices, x.ticker, end).value);
  }

  lemma {:induction false} NothingInvested(prices: PriceBook, legs: seq<Leg>, start: Date, end: Date)
    requires Empty(legs)
    ensures LegsReturn(prices, legs, start, end) == 0.0
  {
    if legs != [] {
      assert forall i :: 0 <= i < |legs| - 1 ==> legs[..|legs| - 1][i] == legs[i];
      NothingInvested(prices, legs[..|legs| - 1], start, end);
    }
  }

  // The net asset value after the first n cycles, skipping intervals the series drops.
  function Simulated(prices: PriceBook, cycles: seq<Cycle>, n: nat, endDate: Date, opening: real): real
    requires n <= |cycles|
  {
    if n == 0 then opening
    else
      var value := Simulated(prices, cycles, n - 1, endDate, opening);
      if PeriodOf(prices, cycles, n - 1, endDate).None? then value
      else Rebalanced(prices, cycles[n - 1].book, value, cycles[n - 1].asOf, EndOf(cycles, n - 1, endDate))
  }

  lemma OnePeriod(prices: PriceBook, cycles: seq<Cycle>, i: nat, endDate: Date, value: real)
    requires i < |cycles| && PeriodOf(prices, cycles, i, endDate).Some?
    ensures Rebalanced(prices, cycles[i].book, value, cycles[i].asOf, EndOf(cycles, i, endDate))
            == Times(value, 1.0 + PeriodOf(prices, cycles, i, endDate).value.ret)
  {
    hide Times, Invested, LegsReturn, SomePriced;
    var start, end, r := cycles[i].asOf, EndOf(cycles, i, endDate), PeriodOf(prices, cycles, i, endDate).value.ret;
    InvestedEarns(prices, cycles[i].book, value, start, end);
    if Empty(cycles[i].book) {
      NothingInvested(prices, cycles[i].book, start, end);
    }
    TimesSum(value, 1.0 + r, 1.0, r);
    TimesNothing(value);
  }

  // Chaining the periods gives exactly the value of the simulated account.
  lemma {:induction false} ChainIsNetAssetValue(
      prices: PriceBook, cycles: seq<Cycle>, n: nat, endDate: Date, opening: real)
    requires n <= |cycles|
    ensures Simulated(prices, cycles, n, endDate, opening)
            == Times(opening, Growth(Periods(prices, cycles, n, endDate)))
  {
    hide Times, Rebalanced, BookReturn;
    if n == 0 {
      TimesNothing(opening);
    } else {
      ChainIsNetAssetValue(prices, cycles, n - 1, endDate, opening);
      var ps := Periods(prices, cycles, n - 1, endDate);
      match PeriodOf(prices, cycles, n - 1, endDate) {
        case None =>
          assert ps + [] == ps;
        case Some(p) =>
          OnePeriod(prices, cycles, n - 1, endDate, Simulated(prices, cycles, n - 1, endDate, opening));
          assert (ps + [p])[..|ps|] == ps;
          TimesRegroups(opening, Growth(ps), 1.0 + p.ret);
      }
    }
  }

  // A book fully invested in one name throughout.
  ghost predicate OnlyHolds(cycles: seq<Cycle>, t: Ticker) {
    forall i :: 0 <= i < |cycles| ==> cycles[i].book == [Leg(t, Some(1.0))]
  }

  function Ratio(x: real, y: real): real
    requires y > 0.0
  {
    x / y
  }

  lemma RatioChains(a: real, b: real, c: real)
    requires a > 0.0 && b > 0.0
    ensures Times(Ratio(b, a), Ratio(c, b)) == Ratio(c, a)
  {
    var x, y := b / a, c / b;
    assert x * a == b && y * b == c;
    assert x * y * a == c;
  }

  lemma OneMove(b: real, c: real)
    requires b > 0.0
    ensures 1.0 + Move(1.0, b, c) == Ratio(c, b)
  {}

  lemma SingleLegReturn(prices: PriceBook, t: Ticker, start: Date, end: Date)
    requires BookReturn(prices, [Leg(t, Some(1.0))], start, end).Some?
    ensures Priced(prices, Leg(t, Some(1.0)), start, end)
    ensures BookReturn(prices, [Leg(t, Some(1.0))], start, end).value
            == LegReturn(prices, Leg(t, Some(1.0)), start, end)
  {
    hide CloseOnOrBefore, Priced, LegReturn;
    var legs := [Leg(t, Some(1.0))];
    assert legs[0].Weight() != 0.0;
    assert legs[..0] == [];
    assert LegsReturn(prices, legs[..0], start, end) == 0.0;
  }

  lemma SingleNamePeriod(prices: PriceBook, cycles: seq<Cycle>, t: Ticker, i: nat, endDate: Date)
    requires i < |cycles| && OnlyHolds(cycles, t) && PeriodOf(prices, cycles, i, endDate).Some?
    ensures var b, c := CloseOnOrBefore(prices, t, cycles[i].asOf),
                        CloseOnOrBefore(prices, t, EndOf(cycles, i, endDate));
            b.Some? && c.Some? && b.value > 0.0
            && 1.0 + PeriodOf(prices, cycles, i, endDate).value.ret == Ratio(c.value, b.value)
  {
    hide CloseOnOrBefore, BookReturn, Move, Ratio;
    var start, end := cycles[i].asOf, EndOf(cycles, i, endDate);
    assert cycles[i].book == [Leg(t, Some(1.0))];
    SingleLegReturn(prices, t, start, end);
    OneMove(CloseOnOrBefore(prices, t, start).value, CloseOnOrBefore(prices, t, end).value);
  }

  // Then the chain telescopes to the price ratio of the two ends.
  lemma {:induction false} SingleNameTelescopes(
      prices: PriceBook, cycles: seq<Cycle>, t: Ticker, n: nat, endDate: Date)
    requires 0 < n <= |cycles| && OnlyHolds(cycles, t)
    requires forall i :: 0 <= i < n ==> PeriodOf(prices, cycles, i, endDate).Some?
    ensures var first, last := CloseOnOrBefore(prices, t, cycles[0].asOf),
                               CloseOnOrBefore(prices, t, EndOf(cycles, n - 1, endDate));
            first.Some? && last.Some? && first.value > 0.0
            && Growth(Periods(prices, cycles, n, endDate)) == Ratio(last.value, first.value)
  {
    hide Times, CloseOnOrBefore, PeriodOf, Ratio, OnlyHolds;
    var p := PeriodOf(prices, cycles, n - 1, endDate).value;
    var ps := Periods(prices, cycles, n - 1, endDate);
    assert (ps + [p])[..|ps|] == ps;
    SingleNamePeriod(prices, cycles, t, n - 1, endDate);
    if n == 1 {
      TimesNothing(1.0 + p.ret);
    } else {
      SingleNameTelescopes(prices, cycles, t, n - 1, endDate);
      RatioChains(CloseOnOrBefore(prices, t, cycles[0].asOf).value,
                  CloseOnOrBefore(prices, t, cycles[n - 1].asOf).value,
                  CloseOnOrBefore(prices, t, EndOf(cycles, n - 1, endDate)).value);
    }
  }
}
