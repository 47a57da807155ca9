// Realised forward returns: one lookup at a time, and many in one pass over the bars.
module ForwardReturns {
  import opened Options

  type Ticker = string
  type Date = int

  datatype Bar = Bar(ticker: Ticker, day: Date, close: real)

  // Bars of one ticker come by day, freshest fetch first; days may repeat once per provider.
  predicate Ordered(rows: seq<Bar>) {
    forall i, j :: 0 <= i < j < |rows| && rows[i].ticker == rows[j].ticker ==> rows[i].day <= rows[j].day
  }

  datatype Quote = Quote(day: Date, close: real)

  // One bar taken into a ticker's series, unless its day is the last one there.
  function AddBar(qs: seq<Quote>, b: Bar, t: Ticker, from: Date): seq<Quote> {
    if b.ticker == t && b.day >= from && (qs == [] || qs[|qs| - 1].day != b.day) then qs + [Quote(b.day, b.close)]
    else qs
  }

  // The first bar of each day of a ticker, from a day on, among the first i rows.
  function FirstPerDay(rows: seq<Bar>, i: nat, t: Ticker, from: Date): seq<Quote>
    requires i <= |rows|
  {
    if i == 0 then [] else AddBar(FirstPerDay(rows, i - 1, t, from), rows[i - 1], t, from)
  }

  predicate Increasing(qs: seq<Quote>) {
    forall i, j :: 0 <= i < j < |qs| ==> qs[i].day < qs[j].day
  }

  predicate UpTo(qs: seq<Quote>, day: Date) {
    forall i :: 0 <= i < |qs| ==> qs[i].day <= day
  }

  function Return(entry: real, exit: real): Option<real> {
    if entry <= 0.0 then None else Some((exit - entry) / entry)
  }

  // The return from the first close on or after a day to the close n trading days later.
  function Realized(qs: seq<Quote>, n: nat): Option<real> {
    if |qs| < n + 1 then None else Return(qs[0].close, qs[n].close)
  }

  function ForwardReturnOf(rows: seq<Bar>, t: Ticker, asOf: Date, n: nat): Option<real> {
    Realized(FirstPerDay(rows, |rows|, t, asOf), n)
  }

  // Days only go up, and never past a later bar of the ticker.
  lemma {:induction false} FirstPerDayIncreases(rows: seq<Bar>, i: nat, t: Ticker, from: Date)
    requires Ordered(rows) && i <= |rows|
    ensures Increasing(FirstPerDay(rows, i, t, from))
    ensures forall j :: i <= j < |rows| && rows[j].ticker == t ==> UpTo(FirstPerDay(rows, i, t, from), rows[j].day)
  {
    if i > 0 {
      FirstPerDayIncreases(rows, i - 1, t, from);
      var qs := FirstPerDay(rows, i - 1, t, from);
      if rows[i - 1].ticker == t {
        assert UpTo(qs, rows[i - 1].day);
      }
    }
  }

  function From(qs: seq<Quote>, asOf: Date): seq<Quote> {
    if qs == [] then []
    else From(qs[..|qs| - 1], asOf) + if qs[|qs| - 1].day >= asOf then [qs[|qs| - 1]] else []
  }

  // Reading from a later day is reading from an earlier one and skipping the days before.
  lemma {:induction false} LaterStart(rows: seq<Bar>, i: nat, t: Ticker, from: Date, asOf: Date)
    requires Ordered(rows) && from <= asOf && i <= |rows|
    ensures FirstPerDay(rows, i, t, asOf) == From(FirstPerDay(rows, i, t, from), asOf)
  {
    if i > 0 {
      LaterStart(rows, i - 1, t, from, asOf);
      FirstPerDayIncreases(rows, i - 1, t, from);
      AddThenSkip(FirstPerDay(rows, i - 1, t, from), rows[i - 1], t, from, asOf);
    }
  }

  lemma AddThenSkip(qs: seq<Quote>, b: Bar, t: Ticker, from: Date, asOf: Date)
    requires Increasing(qs) && from <= asOf
    ensures From(AddBar(qs, b, t, from), asOf) == AddBar(From(qs, asOf), b, t, asOf)
  {
    var q := Quote(b.day, b.close);
    assert (qs + [q])[..|qs|] == qs;
    LastOfFrom(qs, asOf);
  }

  lemma LastOfFrom(qs: seq<Quote>, asOf: Date)
    ensures qs != [] && qs[|qs| - 1].day >= asOf ==>
              From(qs, asOf) != [] && From(qs, asOf)[|From(qs, asOf)| - 1] == qs[|qs| - 1]
    ensures Increasing(qs) && qs != [] && qs[|qs| - 1].day < asOf ==> From(qs, asOf) == []
    decreases |qs|
  {
    if qs != [] && qs[|qs| - 1].day < asOf && Increasing(qs) {
      LastOfFrom(qs[..|qs| - 1], asOf);
    }
  }

  lemma {:induction false} FromIsSuffix(qs: seq<Quote>, asOf: Date, start: nat)
    requires start <= |qs| && forall i :: 0 <= i < |qs| ==> (i < start <==> qs[i].day < asOf)
    ensures From(qs, asOf) == qs[start..]
    decreases |qs|
  {
    if qs != [] {
      var n := |qs| - 1;
      if start <= n {
        FromIsSuffix(qs[..n], asOf, start);
        assert qs[start..] == qs[..n][start..] + [qs[n]];
      } else {
        FromIsSuffix(qs[..n], asOf, n);
      }
    }
  }

  // --- one lookup ----------------------------------------------------------------------------

  method ForwardReturn(rows: seq<Bar>, t: Ticker, asOf: Date, n: nat) returns (r: Option<real>)
    requires Ordered(rows)
    ensures r == ForwardReturnOf(rows, t, asOf, n)
  {
    hide FirstPerDay, Increasing, Return;
    var series: seq<real> := [];
    var seen: set<Date> := {};
    FirstIsEmpty(rows, t, asOf);
    for i := 0 to |rows|
      invariant Mirrors(series, seen, FirstPerDay(rows, i, t, asOf)) && |series| <= n
    {
      var b := rows[i];
      FirstPerDayIncreases(rows, i, t, asOf);
      FirstStep(rows, i, t, asOf);
      if b.ticker == t {
        SeenIsLast(FirstPerDay(rows, i, t, asOf), b.day);
      }
      if b.ticker == t && b.day >= asOf && b.day !in seen {
        MirrorStep(series, seen, FirstPerDay(rows, i, t, asOf), b, t, asOf);
        seen := seen + {b.day};
        series := series + [b.close];
        if |series| > n {
          EnoughRows(rows, i + 1, t, asOf, n);
          return Return(series[0], series[n]);
        }
      }
    }
    r := None;
  }

  // The list and the set the loop keeps, against the quotes they stand for.
  ghost predicate Mirrors(series: seq<real>, seen: set<Date>, qs: seq<Quote>) {
    && |series| == |qs|
    && (forall k :: 0 <= k < |qs| ==> series[k] == qs[k].close)
    && (forall d :: d in seen <==> HasDay(qs, d))
  }

  ghost predicate HasDay(qs: seq<Quote>, d: Date) {
    exists k :: 0 <= k < |qs| && qs[k].day == d
  }

  lemma FirstIsEmpty(rows: seq<Bar>, t: Ticker, asOf: Date)
    ensures FirstPerDay(rows, 0, t, asOf) == [] && Mirrors([], {}, [])
  {}

  lemma FirstStep(rows: seq<Bar>, i: nat, t: Ticker, asOf: Date)
    requires i < |rows|
    ensures FirstPerDay(rows, i + 1, t, asOf) == AddBar(FirstPerDay(rows, i, t, asOf), rows[i], t, asOf)
  {}

  lemma MirrorStep(series: seq<real>, seen: set<Date>, qs: seq<Quote>, b: Bar, t: Ticker, asOf: Date)
    requires Mirrors(series, seen, qs) && b.ticker == t && b.day >= asOf && b.day !in seen
    ensures Mirrors(series + [b.close], seen + {b.day}, AddBar(qs, b, t, asOf))
  {
    var more := qs + [Quote(b.day, b.close)];
    if qs != [] {
      assert HasDay(qs, qs[|qs| - 1].day);
    }
    assert AddBar(qs, b, t, asOf) == more;
    forall d
      ensures HasDay(more, d) <==> HasDay(qs, d) || d == b.day
    {
      if HasDay(qs, d) {
        var k :| 0 <= k < |qs| && qs[k].day == d;
        assert more[k].day == d;
      }
      assert more[|qs|].day == b.day;
    }
  }

  // Days come in order, so a day was seen exactly when it is the last one kept.
  lemma SeenIsLast(qs: seq<Quote>, day: Date)
    requires Increasing(qs) && UpTo(qs, day)
    ensures HasDay(qs, day) <==> qs != [] && qs[|qs| - 1].day == day
  {}

  lemma {:induction false} EnoughRows(rows: seq<Bar>, i: nat, t: Ticker, asOf: Date, n: nat)
    requires i <= |rows| && |FirstPerDay(rows, i, t, asOf)| > n
    ensures ForwardReturnOf(rows, t, asOf, n)
            == Return(FirstPerDay(rows, i, t, asOf)[0].close, FirstPerDay(rows, i, t, asOf)[n].close)
    decreases |rows| - i
  {
    if i < |rows| {
      FirstStep(rows, i, t, asOf);
      EnoughRows(rows, i + 1, t, asOf, n);
    }
  }

  // --- many lookups in one pass --------------------------------------------------------------

  method BisectLeft(qs: seq<Quote>, asOf: Date) returns (k: nat)
    requires Increasing(qs)
    ensures k <= |qs| && forall i :: 0 <= i < |qs| ==> (i < k <==> qs[i].day < asOf)
  {
    var hi := |qs|;
    k := 0;
    while k < hi
      invariant 0 <= k <= hi <= |qs|
      invariant forall i :: 0 <= i < k ==> qs[i].day < asOf
      invariant forall i :: hi <= i < |qs| ==> asOf <= qs[i].day
    {
      var mid := (k + hi) / 2;
      if qs[mid].day < asOf {
        k := mid + 1;
      } else {
        hi := mid;
      }
    }
  }

  ghost predicate SeriesOf(series: map<Ticker, seq<Quote>>, rows: seq<Bar>, i: nat, tickers: set<Ticker>, from: Date)
    requires i <= |rows|
  {
    forall t :: t in tickers ==> SeriesFor(series, t) == FirstPerDay(rows, i, t, from)
  }

  function SeriesFor(series: map<Ticker, seq<Quote>>, t: Ticker): seq<Quote> {
    if t in series then series[t] else []
  }

  method CollectSeries(rows: seq<Bar>, tickers: set<Ticker>, from: Date) returns (series: map<Ticker, seq<Quote>>)
    ensures SeriesOf(series, rows, |rows|, tickers, from)
  {
    series := map[];
    for i := 0 to |rows|
      invariant SeriesOf(series, rows, i, tickers, from)
    {
      hide FirstPerDay;
      var b := rows[i];
      forall t
        ensures FirstPerDay(rows, i + 1, t, from) == AddBar(FirstPerDay(rows, i, t, from), b, t, from)
      {
        FirstStep(rows, i, t, from);
      }
      if b.ticker !in tickers || b.day < from {
        continue;
      }
      var done := SeriesFor(series, b.ticker);
      if done == [] || done[|done| - 1].day != b.day {
        series := series[b.ticker := done + [Quote(b.day, b.close)]];
      }
    }
  }

  method Earliest(wanted: seq<(Ticker, Date)>) returns (d: Date)
    requires wanted != []
    ensures forall i :: 0 <= i < |wanted| ==> d <= wanted[i].1
  {
    d := wanted[0].1;
    for i := 0 to |wanted|
      invariant forall j :: 0 <= j < i ==> d <= wanted[j].1
    {
      if wanted[i].1 < d {
        d := wanted[i].1;
      }
    }
  }

  function Normalized(pairs: seq<(Ticker, Date)>, upper: Ticker -> Ticker): seq<(Ticker, Date)> {
    seq(|pairs|, i requires 0 <= i < |pairs| => (upper(pairs[i].0), pairs[i].1))
  }

  // Every pair gets exactly what the single lookup gives it, missing windows included.
  method BatchForwardReturns(rows: seq<Bar>, pairs: seq<(Ticker, Date)>, n: nat, upper: Ticker -> Ticker)
    returns (out: map<(Ticker, Date), Option<real>>)
    requires Ordered(rows)
    ensures forall i :: 0 <= i < |pairs| ==>
              (upper(pairs[i].0), pairs[i].1) in out
              && out[(upper(pairs[i].0), pairs[i].1)] == ForwardReturnOf(rows, upper(pairs[i].0), pairs[i].1, n)
    ensures forall k :: k in out ==> exists i :: 0 <= i < |pairs| && k == (upper(pairs[i].0), pairs[i].1)
  {
    hide ForwardReturnOf, FirstPerDay, SeriesOf;
    out := map[];
    var wanted := Normalized(pairs, upper);
    if wanted == [] {
      return;
    }
    var tickers := set i | 0 <= i < |wanted| :: wanted[i].0;
    var from := Earliest(wanted);
    var series := CollectSeries(rows, tickers, from);
    for i := 0 to |wanted|
      invariant forall j :: 0 <= j < i ==>
                  wanted[j] in out && out[wanted[j]] == ForwardReturnOf(rows, wanted[j].0, wanted[j].1, n)
      invariant forall k :: k in out ==> exists j :: 0 <= j < i && k == wanted[j]
    {
      var (t, asOf) := wanted[i];
      assert t in tickers;
      var r := FromSeries(rows, series, tickers, from, t, asOf, n);
      out := out[(t, asOf) := r];
    }
    forall i | 0 <= i < |pairs|
      ensures (upper(pairs[i].0), pairs[i].1) in out
              && out[(upper(pairs[i].0), pairs[i].1)] == ForwardReturnOf(rows, upper(pairs[i].0), pairs[i].1, n)
    {
      assert wanted[i] == (upper(pairs[i].0), pairs[i].1);
    }
  }

  method FromSeries(
      rows: seq<Bar>, series: map<Ticker, seq<Quote>>, tickers: set<Ticker>, from: Date, t: Ticker, asOf: Date, n: nat)
    returns (r: Option<real>)
    requires Ordered(rows) && SeriesOf(series, rows, |rows|, tickers, from) && t in tickers && from <= asOf
    ensures r == ForwardReturnOf(rows, t, asOf, n)
  {
    hide FirstPerDay, Return;
    LaterStart(rows, |rows|, t, from, asOf);
    FirstPerDayIncreases(rows, |rows|, t, from);
    if t !in series {
      assert From([], asOf) == [];
      return None;
    }
    var qs := series[t];
    var start := BisectLeft(qs, asOf);
    FromIsSuffix(qs, asOf, start);
    if start + n >= |qs| {
      return None;
    }
    var entry, exit := qs[start].close, qs[start + n].close;
    r := Return(entry, exit);
  }

  // --- what the return is --------------------------------------------------------------------

  // The bar that counts for a day: the first of its ticker.
  ghost predicate FirstBar(rows: seq<Bar>, i: nat, n: nat) {
    i < n <= |rows| && forall j :: 0 <= j < i ==> rows[j].ticker != rows[i].ticker || rows[j].day != rows[i].day
  }

  ghost predicate BarOf(rows: seq<Bar>, n: nat, t: Ticker, from: Date, q: Quote) {
    exists i: nat :: FirstBar(rows, i, n) && rows[i].ticker == t && rows[i].day >= from
                     && rows[i].day == q.day && rows[i].close == q.close
  }

  lemma BarOfMore(rows: seq<Bar>, n: nat, t: Ticker, from: Date, q: Quote)
    requires n < |rows|
    ensures BarOf(rows, n + 1, t, from, q)
            <==> BarOf(rows, n, t, from, q)
                 || (FirstBar(rows, n, n + 1) && rows[n].ticker == t && rows[n].day >= from && rows[n].day == q.day
                     && rows[n].close == q.close)
  {
    if BarOf(rows, n, t, from, q) {
      var i: nat :| FirstBar(rows, i, n) && rows[i].ticker == t && rows[i].day >= from
                    && rows[i].day == q.day && rows[i].close == q.close;
      assert FirstBar(rows, i, n + 1);
    }
    if BarOf(rows, n + 1, t, from, q) {
      var i: nat :| FirstBar(rows, i, n + 1) && rows[i].ticker == t && rows[i].day >= from
                    && rows[i].day == q.day && rows[i].close == q.close;
      assert i < n ==> FirstBar(rows, i, n);
    }
  }

  // The quotes of a ticker from a day on are exactly the first bars of its days, in increasing days.
  lemma {:induction false} QuotesAreFirstBars(rows: seq<Bar>, n: nat, t: Ticker, from: Date)
    requires Ordered(rows) && n <= |rows|
    ensures Increasing(FirstPerDay(rows, n, t, from))
    ensures forall q :: q in FirstPerDay(rows, n, t, from) <==> BarOf(rows, n, t, from, q)
  {
    hide BarOf;
    FirstPerDayIncreases(rows, n, t, from);
    if n == 0 {
      forall q
        ensures !BarOf(rows, 0, t, from, q)
      {
        NoBars(rows, t, from, q);
      }
    } else {
      QuotesAreFirstBars(rows, n - 1, t, from);
      FirstPerDayIncreases(rows, n - 1, t, from);
      NewDay(rows, n - 1, t, from);
      forall q
        ensures q in FirstPerDay(rows, n, t, from) <==> BarOf(rows, n, t, from, q)
      {
        BarOfMore(rows, n - 1, t, from, q);
      }
    }
  }

  lemma NoBars(rows: seq<Bar>, t: Ticker, from: Date, q: Quote)
    ensures !BarOf(rows, 0, t, from, q)
  {}

  // A bar opens a new day exactly when no quote has its day yet.
  lemma NewDay(rows: seq<Bar>, n: nat, t: Ticker, from: Date)
    requires Ordered(rows) && n < |rows|
    requires forall q :: q in FirstPerDay(rows, n, t, from) <==> BarOf(rows, n, t, from, q)
    requires Increasing(FirstPerDay(rows, n, t, from))
    requires rows[n].ticker == t ==> UpTo(FirstPerDay(rows, n, t, from), rows[n].day)
    ensures rows[n].ticker == t && rows[n].day >= from ==>
              var qs := FirstPerDay(rows, n, t, from);
              FirstBar(rows, n, n + 1) <==> qs == [] || qs[|qs| - 1].day != rows[n].day
  {
    hide FirstPerDay;
    var qs := FirstPerDay(rows, n, t, from);
    if rows[n].ticker == t && rows[n].day >= from {
      if qs != [] && qs[|qs| - 1].day == rows[n].day {
        assert qs[|qs| - 1] in qs;
        var i: nat :| FirstBar(rows, i, n) && rows[i].ticker == t && rows[i].day == qs[|qs| - 1].day;
      }
      if j :| 0 <= j < n && rows[j].ticker == t && rows[j].day == rows[n].day {
        var i := EarliestBar(rows, j, n);
        var q := Quote(rows[i].day, rows[i].close);
        assert BarOf(rows, n, t, from, q);
        assert q in qs;
      }
    }
  }

  lemma {:induction false} EarliestBar(rows: seq<Bar>, j: nat, n: nat) returns (i: nat)
    requires j < n <= |rows|
    ensures FirstBar(rows, i, n) && rows[i].ticker == rows[j].ticker && rows[i].day == rows[j].day
  {
    if k :| 0 <= k < j && rows[k].ticker == rows[j].ticker && rows[k].day == rows[j].day {
      i := EarliestBar(rows, k, n);
    } else {
      i := j;
    }
  }

  // The forward return is the gain from the first day's close to the close n distinct days later, as a fraction
  // of the first; there is none when there are not that many days, or when the first close is not positive.
  lemma ForwardReturnMeans(rows: seq<Bar>, t: Ticker, asOf: Date, n: nat)
    requires Ordered(rows)
    ensures var qs, r := FirstPerDay(rows, |rows|, t, asOf), ForwardReturnOf(rows, t, asOf, n);
            && Increasing(qs) && (forall q :: q in qs <==> BarOf(rows, |rows|, t, asOf, q))
            && (r.Some? <==> |qs| > n && qs[0].close > 0.0)
            && (r.Some? ==> r.value * qs[0].close == qs[n].close - qs[0].close)
  {
    QuotesAreFirstBars(rows, |rows|, t, asOf);
  }
}
