/**
 * Moving-average crossover detection: two trailing simple moving averages per
 * column, a 0/1 signal that is 1 where the short average is above the long
 * one, and a record wherever that signal changes.
 */
module Crossovers {
  import opened Prices

  datatype Kind = GoldenCross | DeadCross

  /** One crossover record: the column it was found in, its date and its direction. */
  datatype Event = Event(stock: string, date: Date, kind: Kind)

  function Sum(s: seq<real>): real
  {
    if s == [] then 0.0 else Sum(s[..|s| - 1]) + s[|s| - 1]
  }

  /**
   * The trailing mean of the `w` prices ending at row `i`; undefined (NaN)
   * for the first `w - 1` rows.
   */
  function MovingAverage(prices: seq<real>, w: nat, i: nat): Option<real>
    requires 1 <= w && i < |prices|
  {
    if w <= i + 1 then Some(Sum(prices[i + 1 - w..i + 1]) / w as real) else None
  }

  /** The whole rolling-mean series of a column. */
  function RollingMean(prices: seq<real>, w: nat): (ma: seq<Option<real>>)
    requires 1 <= w
    ensures |ma| == |prices|
  {
    seq(|prices|, i requires 0 <= i < |prices| => MovingAverage(prices, w, i))
  }

  /** Comparison of two averages where NaN on either side compares false. */
  predicate Above(a: Option<real>, b: Option<real>)
  {
    a.Some? && b.Some? && a.value > b.value
  }

  /** The signal at row `i`: 1 where the short average is above the long one, else 0. */
  function Signal(prices: seq<real>, shortWindow: nat, longWindow: nat, i: nat): (s: int)
    requires 1 <= shortWindow && 1 <= longWindow && i < |prices|
    ensures s == 0 || s == 1
  {
    if Above(MovingAverage(prices, shortWindow, i), MovingAverage(prices, longWindow, i)) then 1 else 0
  }

  /**
   * The signal is 1 exactly where both averages are defined and the short one
   * is strictly greater, which is compared without division: the short sum
   * times the long window exceeds the long sum times the short window.
   * Warm-up rows and equal averages give 0.
   */
  lemma SignalIffShortAboveLong(prices: seq<real>, shortWindow: nat, longWindow: nat, i: nat)
    requires 1 <= shortWindow && 1 <= longWindow && i < |prices|
    ensures Signal(prices, shortWindow, longWindow, i) == 1 <==>
              && shortWindow <= i + 1 && longWindow <= i + 1
              && longWindow as real * Sum(prices[i + 1 - shortWindow..i + 1])
                 > shortWindow as real * Sum(prices[i + 1 - longWindow..i + 1])
  {
    if shortWindow <= i + 1 && longWindow <= i + 1 {
      CompareMeans(Sum(prices[i + 1 - shortWindow..i + 1]), shortWindow as real,
                   Sum(prices[i + 1 - longWindow..i + 1]), longWindow as real);
    }
  }

  /** Two means compare as their sums weighted by the other window's length. */
  lemma CompareMeans(a: real, s: real, b: real, l: real)
    requires 0.0 < s && 0.0 < l
    ensures a / s > b / l <==> l * a > s * b
  {
    var x, y := a / s, b / l;
    assert a == x * s && b == y * l;
    assert l * a - s * b == (s * l) * (x - y);
    assert 0.0 < s * l;
  }

  /**
   * The signal series of a column: one 0/1 value per row, and 0 at the first
   * row (both averages exist there only for windows of 1, and are then equal).
   */
  function SignalSeries(prices: seq<real>, shortWindow: nat, longWindow: nat): (signal: seq<int>)
    requires 1 <= shortWindow && 1 <= longWindow
    ensures |signal| == |prices| && WellFormedSignal(signal)
  {
    SignalStartsLow(prices, shortWindow, longWindow);
    seq(|prices|, i requires 0 <= i < |prices| => Signal(prices, shortWindow, longWindow, i))
  }

  /** Both averages exist at the first row only for windows of 1, and are then equal. */
  lemma SignalStartsLow(prices: seq<real>, shortWindow: nat, longWindow: nat)
    requires 1 <= shortWindow && 1 <= longWindow
    ensures |prices| > 0 ==> Signal(prices, shortWindow, longWindow, 0) == 0
  {
    if |prices| > 0 && shortWindow == 1 && longWindow == 1 {
      assert MovingAverage(prices, shortWindow, 0) == MovingAverage(prices, longWindow, 0);
    }
  }

  /** Every value of a signal is 0 or 1. */
  predicate ZeroOne(signal: seq<int>)
  {
    forall i :: 0 <= i < |signal| ==> signal[i] == 0 || signal[i] == 1
  }

  /** A signal takes the values 0 and 1 and starts at 0. */
  predicate WellFormedSignal(signal: seq<int>)
  {
    ZeroOne(signal) && (|signal| > 0 ==> signal[0] == 0)
  }

  /** The kind named by the signal value a change reaches. */
  function KindOf(value: int): Kind
  {
    if value == 1 then GoldenCross else DeadCross
  }

  /** The records for row `i` >= 1, from the first difference of the signal there. */
  function EventAt(name: string, dates: seq<Date>, signal: seq<int>, i: nat): seq<Event>
    requires 1 <= i < |signal| == |dates|
  {
    var diff := signal[i] - signal[i - 1];
    if diff == 1 then [Event(name, dates[i], GoldenCross)]
    else if diff == -1 then [Event(name, dates[i], DeadCross)]
    else []
  }

  /** The records of one column over its first `n` rows, in row order; row 0 has no difference. */
  function EventsUpTo(name: string, dates: seq<Date>, signal: seq<int>, n: nat): seq<Event>
    requires n <= |signal| == |dates|
  {
    if n <= 1 then []
    else EventsUpTo(name, dates, signal, n - 1) + EventAt(name, dates, signal, n - 1)
  }

  function ColumnEvents(c: Column, dates: seq<Date>, shortWindow: nat, longWindow: nat): seq<Event>
    requires 1 <= shortWindow && 1 <= longWindow && |c.prices| == |dates|
  {
    EventsUpTo(c.name, dates, SignalSeries(c.prices, shortWindow, longWindow), |dates|)
  }

  /** The records of all columns, column after column. */
  function TableEvents(columns: seq<Column>, dates: seq<Date>, shortWindow: nat, longWindow: nat): seq<Event>
    requires 1 <= shortWindow && 1 <= longWindow && Aligned(columns, dates)
  {
    if columns == [] then []
    else TableEvents(columns[..|columns| - 1], dates, shortWindow, longWindow)
         + ColumnEvents(columns[|columns| - 1], dates, shortWindow, longWindow)
  }

  lemma {:induction false} SumBounds(s: seq<real>, lo: real, hi: real)
    requires forall j :: 0 <= j < |s| ==> lo <= s[j] <= hi
    ensures |s| as real * lo <= Sum(s) <= |s| as real * hi
  {
    if s != [] {
      SumBounds(s[..|s| - 1], lo, hi);
    }
  }

  /**
   * Where it is defined, a moving average lies between the smallest and the
   * largest price of its window (so a flat window averages to its price).
   */
  lemma MovingAverageWithinWindow(prices: seq<real>, w: nat, i: nat, lo: real, hi: real)
    requires 1 <= w <= i + 1 && i < |prices|
    requires forall j :: i + 1 - w <= j <= i ==> lo <= prices[j] <= hi
    ensures MovingAverage(prices, w, i).Some?
    ensures lo <= MovingAverage(prices, w, i).value <= hi
  {
    var window := prices[i + 1 - w..i + 1];
    SumBounds(window, lo, hi);
    MeanBounds(Sum(window), w as real, lo, hi);
  }

  lemma MeanBounds(total: real, w: real, lo: real, hi: real)
    requires 0.0 < w && w * lo <= total <= w * hi
    ensures lo <= total / w <= hi
  {
    var m := total / w;
    assert w * (m - lo) == total - w * lo;
    assert w * (hi - m) == w * hi - total;
  }

  /**
   * For any 0/1 signal, a record is emitted at row i >= 1 exactly when the
   * signal differs from the row before: a Golden Cross when it became 1, a
   * Dead Cross when it became 0. Nothing is emitted for row 0.
   */
  lemma {:induction false} EventIffSignalChange(name: string, dates: seq<Date>, signal: seq<int>, n: nat, e: Event)
    requires n <= |signal| == |dates| && ZeroOne(signal)
    ensures e in EventsUpTo(name, dates, signal, n) <==>
              exists i :: 1 <= i < n && signal[i] != signal[i - 1] && e == Event(name, dates[i], KindOf(signal[i]))
  {
    if n > 1 {
      EventIffSignalChange(name, dates, signal, n - 1, e);
    }
  }

  /** Every record of a column names that column. */
  lemma {:induction false} EventsNameTheirColumn(name: string, dates: seq<Date>, signal: seq<int>, n: nat)
    requires n <= |signal| == |dates|
    ensures forall e :: e in EventsUpTo(name, dates, signal, n) ==> e.stock == name
  {
    if n > 1 {
      EventsNameTheirColumn(name, dates, signal, n - 1);
    }
  }

  lemma {:induction false} EventsPrecedeRow(name: string, dates: seq<Date>, signal: seq<int>, n: nat, m: nat)
    requires n <= m < |signal| == |dates| && StrictlyIncreasing(dates)
    ensures forall e :: e in EventsUpTo(name, dates, signal, n) ==> e.date < dates[m]
  {
    if n > 1 {
      EventsPrecedeRow(name, dates, signal, n - 1, m);
    }
  }

  predicate DatesIncrease(ev: seq<Event>)
  {
    forall a, b :: 0 <= a < b < |ev| ==> ev[a].date < ev[b].date
  }

  lemma AppendLaterEvent(previous: seq<Event>, found: seq<Event>, d: Date)
    requires DatesIncrease(previous) && |found| <= 1
    requires forall e :: e in previous ==> e.date < d
    requires forall e :: e in found ==> e.date == d
    ensures DatesIncrease(previous + found)
  {
    var ev := previous + found;
    forall a, b | 0 <= a < b < |ev|
      ensures ev[a].date < ev[b].date
    {
      if b < |previous| {
        assert ev[a] == previous[a] && ev[b] == previous[b];
      } else {
        assert ev[a] == previous[a] && previous[a] in previous && ev[b] in found;
      }
    }
  }

  /** The records of one column carry strictly increasing dates. */
  lemma {:induction false} EventDatesIncrease(name: string, dates: seq<Date>, signal: seq<int>, n: nat)
    requires n <= |signal| == |dates| && StrictlyIncreasing(dates)
    ensures DatesIncrease(EventsUpTo(name, dates, signal, n))
  {
    if n > 1 {
      EventDatesIncrease(name, dates, signal, n - 1);
      EventsPrecedeRow(name, dates, signal, n - 1, n - 1);
      AppendLaterEvent(EventsUpTo(name, dates, signal, n - 1), EventAt(name, dates, signal, n - 1), dates[n - 1]);
    }
  }

  /**
   * The last record so far names the current signal: a Golden Cross when it
   * is 1, a Dead Cross when it is 0; with no record yet the signal is still 0.
   */
  lemma {:induction false} LastEventTracksSignal(name: string, dates: seq<Date>, signal: seq<int>, n: nat)
    requires 1 <= n <= |signal| == |dates| && WellFormedSignal(signal)
    ensures var ev := EventsUpTo(name, dates, signal, n);
            && (ev == [] ==> signal[n - 1] == 0)
            && (ev != [] ==> ev[|ev| - 1].kind == KindOf(signal[n - 1]))
  {
    if n > 1 {
      LastEventTracksSignal(name, dates, signal, n - 1);
    }
  }

  /** Within a column the kinds alternate, starting with a Golden Cross. */
  lemma {:induction false} EventsAlternate(name: string, dates: seq<Date>, signal: seq<int>, n: nat)
    requires n <= |signal| == |dates| && WellFormedSignal(signal)
    ensures var ev := EventsUpTo(name, dates, signal, n);
            && (ev != [] ==> ev[0].kind == GoldenCross)
            && forall a :: 0 <= a < |ev| - 1 ==> ev[a].kind != ev[a + 1].kind
  {
    if n > 1 {
      EventsAlternate(name, dates, signal, n - 1);
      LastEventTracksSignal(name, dates, signal, n - 1);
    }
  }

  /** A signal that never leaves 0 yields no records. */
  lemma {:induction false} FlatSignalHasNoEvents(name: string, dates: seq<Date>, signal: seq<int>, n: nat)
    requires n <= |signal| == |dates|
    requires forall i :: 0 <= i < |signal| ==> signal[i] == 0
    ensures EventsUpTo(name, dates, signal, n) == []
  {
    if n > 1 {
      FlatSignalHasNoEvents(name, dates, signal, n - 1);
    }
  }

  /** Equal windows, or a window longer than the series, never produce a record. */
  lemma NoEventsForDegenerateWindows(c: Column, dates: seq<Date>, shortWindow: nat, longWindow: nat)
    requires 1 <= shortWindow && 1 <= longWindow && |c.prices| == |dates|
    requires shortWindow == longWindow || |dates| < shortWindow || |dates| < longWindow
    ensures ColumnEvents(c, dates, shortWindow, longWindow) == []
  {
    var signal := SignalSeries(c.prices, shortWindow, longWindow);
    forall i | 0 <= i < |signal|
      ensures signal[i] == 0
    {
      assert signal[i] == Signal(c.prices, shortWindow, longWindow, i);
    }
    FlatSignalHasNoEvents(c.name, dates, signal, |dates|);
  }

  lemma SmallSums(a: real, b: real, c: real)
    ensures Sum([a, b]) == a + b && Sum([b, c]) == b + c && Sum([a, b, c]) == a + b + c
  {
    assert [a][..0] == [] && [b][..0] == [];
    assert Sum([a]) == a && Sum([b]) == b;
    assert [a, b][..1] == [a];
    assert [b, c][..1] == [b];
    assert [a, b, c][..2] == [a, b];
  }

  lemma ShortWindows(p: seq<real>, i: nat)
    requires 2 <= i < |p|
    ensures MovingAverage(p, 2, i) == Some((p[i - 1] + p[i]) / 2.0)
    ensures MovingAverage(p, 3, i) == Some((p[i - 2] + p[i - 1] + p[i]) / 3.0)
  {
    assert p[i - 1..i + 1] == [p[i - 1], p[i]];
    assert p[i - 2..i + 1] == [p[i - 2], p[i - 1], p[i]];
    SmallSums(p[i - 2], p[i - 1], p[i]);
  }

  lemma SignalOfShortWindows(p: seq<real>, i: nat)
    requires 2 <= i < |p|
    ensures SignalSeries(p, 2, 3)[i]
            == if (p[i - 1] + p[i]) / 2.0 > (p[i - 2] + p[i - 1] + p[i]) / 3.0 then 1 else 0
  {
    ShortWindows(p, i);
    assert SignalSeries(p, 2, 3)[i] == Signal(p, 2, 3, i);
  }

  /** The signal of the traced scenario below, row by row. */
  lemma TracedSignal()
    ensures SignalSeries([10.0, 10.0, 10.0, 12.0, 12.0, 12.0, 9.0, 9.0, 9.0], 2, 3)
            == [0, 0, 0, 1, 1, 0, 0, 0, 0]
  {
    var p := [10.0, 10.0, 10.0, 12.0, 12.0, 12.0, 9.0, 9.0, 9.0];
    var signal := SignalSeries(p, 2, 3);
    assert signal[1] == 0;
    assert signal[2] == 0 by {
      SignalOfShortWindows(p, 2);
      assert p[0] == 10.0 && p[1] == 10.0 && p[2] == 10.0;
    }
    assert signal[3] == 1 by {
      SignalOfShortWindows(p, 3);
      assert p[1] == 10.0 && p[2] == 10.0 && p[3] == 12.0;
    }
    assert signal[4] == 1 by {
      SignalOfShortWindows(p, 4);
      assert p[2] == 10.0 && p[3] == 12.0 && p[4] == 12.0;
    }
    assert signal[5] == 0 by {
      SignalOfShortWindows(p, 5);
      assert p[3] == 12.0 && p[4] == 12.0 && p[5] == 12.0;
    }
    assert signal[6] == 0 by {
      SignalOfShortWindows(p, 6);
      assert p[4] == 12.0 && p[5] == 12.0 && p[6] == 9.0;
    }
    assert signal[7] == 0 by {
      SignalOfShortWindows(p, 7);
      assert p[5] == 12.0 && p[6] == 9.0 && p[7] == 9.0;
    }
    assert signal[8] == 0 by {
      SignalOfShortWindows(p, 8);
      assert p[6] == 9.0 && p[7] == 9.0 && p[8] == 9.0;
    }
  }

  /**
   * Prices 10, 10, 10, 12, 12, 12, 9, 9, 9 with windows 2 and 3: a Golden
   * Cross at row 3 and a Dead Cross at row 5, where the averages are both 12.
   */
  lemma TracedScenario()
    ensures ColumnEvents(Column("S", [10.0, 10.0, 10.0, 12.0, 12.0, 12.0, 9.0, 9.0, 9.0]),
                         [0, 1, 2, 3, 4, 5, 6, 7, 8], 2, 3)
            == [Event("S", 3, GoldenCross), Event("S", 5, DeadCross)]
  {
    TracedSignal();
    TracedRecords();
  }

  /** The records of the traced signal, row by row. */
  lemma TracedRecords()
    ensures EventsUpTo("S", [0, 1, 2, 3, 4, 5, 6, 7, 8], [0, 0, 0, 1, 1, 0, 0, 0, 0], 9)
            == [Event("S", 3, GoldenCross), Event("S", 5, DeadCross)]
  {
    var d: seq<Date> := [0, 1, 2, 3, 4, 5, 6, 7, 8];
    var signal := [0, 0, 0, 1, 1, 0, 0, 0, 0];
    assert EventsUpTo("S", d, signal, 2) == [];
    assert EventsUpTo("S", d, signal, 3) == [];
    assert EventsUpTo("S", d, signal, 4) == [Event("S", 3, GoldenCross)];
    assert EventsUpTo("S", d, signal, 5) == [Event("S", 3, GoldenCross)];
    assert EventsUpTo("S", d, signal, 6) == [Event("S", 3, GoldenCross), Event("S", 5, DeadCross)];
    assert EventsUpTo("S", d, signal, 7) == [Event("S", 3, GoldenCross), Event("S", 5, DeadCross)];
    assert EventsUpTo("S", d, signal, 8) == [Event("S", 3, GoldenCross), Event("S", 5, DeadCross)];
  }

  /** Every record of the table comes from one of its columns and names it. */
  lemma {:induction false} TableEventFromColumn(columns: seq<Column>, dates: seq<Date>,
                                                shortWindow: nat, longWindow: nat, e: Event)
    requires 1 <= shortWindow && 1 <= longWindow && Aligned(columns, dates)
    requires e in TableEvents(columns, dates, shortWindow, longWindow)
    ensures exists k :: 0 <= k < |columns| && e.stock == columns[k].name
                        && e in ColumnEvents(columns[k], dates, shortWindow, longWindow)
  {
    var last := columns[|columns| - 1];
    var prefix := columns[..|columns| - 1];
    if e in ColumnEvents(last, dates, shortWindow, longWindow) {
      EventsNameTheirColumn(last.name, dates, SignalSeries(last.prices, shortWindow, longWindow), |dates|);
    } else {
      TableEventFromColumn(prefix, dates, shortWindow, longWindow, e);
      var k :| 0 <= k < |prefix| && e.stock == prefix[k].name
               && e in ColumnEvents(prefix[k], dates, shortWindow, longWindow);
      assert prefix[k] == columns[k];
    }
  }

  predicate SameStockDatesIncrease(ev: seq<Event>)
  {
    forall a, b :: 0 <= a < b < |ev| && ev[a].stock == ev[b].stock ==> ev[a].date < ev[b].date
  }

  /**
   * Over the whole table, the records of any one stock carry strictly
   * increasing dates, so no stock has two records on the same date.
   */
  lemma {:induction false} TableEventsPerStockIncrease(columns: seq<Column>, dates: seq<Date>,
                                                       shortWindow: nat, longWindow: nat)
    requires 1 <= shortWindow && 1 <= longWindow
    requires StrictlyIncreasing(dates) && Aligned(columns, dates) && DistinctNames(columns)
    ensures SameStockDatesIncrease(TableEvents(columns, dates, shortWindow, longWindow))
  {
    if columns != [] {
      var last := columns[|columns| - 1];
      var prefix := columns[..|columns| - 1];
      TableEventsPerStockIncrease(prefix, dates, shortWindow, longWindow);
      var previous := TableEvents(prefix, dates, shortWindow, longWindow);
      var current := ColumnEvents(last, dates, shortWindow, longWindow);
      var signal := SignalSeries(last.prices, shortWindow, longWindow);
      EventDatesIncrease(last.name, dates, signal, |dates|);
      EventsNameTheirColumn(last.name, dates, signal, |dates|);
      forall e | e in previous
        ensures e.stock != last.name
      {
        TableEventFromColumn(prefix, dates, shortWindow, longWindow, e);
      }
      AppendOtherStock(previous, current, last.name);
    }
  }

  lemma AppendOtherStock(previous: seq<Event>, current: seq<Event>, name: string)
    requires SameStockDatesIncrease(previous) && DatesIncrease(current)
    requires forall e :: e in previous ==> e.stock != name
    requires forall e :: e in current ==> e.stock == name
    ensures SameStockDatesIncrease(previous + current)
  {
    var ev := previous + current;
    forall a, b | 0 <= a < b < |ev| && ev[a].stock == ev[b].stock
      ensures ev[a].date < ev[b].date
    {
      if b < |previous| {
        assert ev[a] == previous[a] && ev[b] == previous[b];
      } else if a < |previous| {
        // the earlier record names another stock
        assert false;
      } else {
        assert ev[a] == current[a - |previous|] && ev[b] == current[b - |previous|];
      }
    }
  }

  /** The zero series set to 1 under the mask `short > long` is the signal series. */
  lemma MaskedSignal(prices: seq<real>, shortWindow: nat, longWindow: nat, masked: seq<int>)
    requires 1 <= shortWindow && 1 <= longWindow && |masked| == |prices|
    requires forall i :: 0 <= i < |masked| ==>
               masked[i] == if Above(RollingMean(prices, shortWindow)[i], RollingMean(prices, longWindow)[i]) then 1 else 0
    ensures masked == SignalSeries(prices, shortWindow, longWindow)
  {
  }

  /**
   * One column's pass: both rolling means, a zero signal set to 1 where the
   * short mean is above the long one, and the records its changes yield.
   */
  method DetectColumn(column: Column, dates: seq<Date>, shortWindow: nat, longWindow: nat)
    returns (records: seq<Event>)
    requires 1 <= shortWindow && 1 <= longWindow && |column.prices| == |dates|
    ensures records == ColumnEvents(column, dates, shortWindow, longWindow)
  {
    var n := |dates|;
    var shortMa := RollingMean(column.prices, shortWindow);
    var longMa := RollingMean(column.prices, longWindow);
    var signal := new int[n](_ => 0);
    forall i | 0 <= i < n && Above(shortMa[i], longMa[i]) {
      signal[i] := 1;
    }
    MaskedSignal(column.prices, shortWindow, longWindow, signal[..]);
    records := EmitRecords(column.name, dates, signal);
  }

  /**
   * The first difference of a signal and the records it yields: a Golden
   * Cross where it is +1, a Dead Cross where it is -1, in row order. The
   * difference at the first row is undefined and dropped.
   */
  method EmitRecords(name: string, dates: seq<Date>, signal: array<int>) returns (records: seq<Event>)
    requires signal.Length == |dates|
    ensures records == EventsUpTo(name, dates, signal[..], |dates|)
  {
    records := [];
    for i := 0 to signal.Length
      invariant records == EventsUpTo(name, dates, signal[..], i)
    {
      if 0 < i {
        var value := signal[i] - signal[i - 1];
        if value == 1 {
          records := records + [Event(name, dates[i], GoldenCross)];
        } else if value == -1 {
          records := records + [Event(name, dates[i], DeadCross)];
        }
      }
    }
  }

  /** Runs the per-column pass over every column and appends its records, column after column. */
  method CreateCrossovers(t: Table, shortWindow: nat, longWindow: nat) returns (results: seq<Event>)
    requires ValidTable(t) && 1 <= shortWindow && 1 <= longWindow
    ensures results == TableEvents(t.columns, t.dates, shortWindow, longWindow)
  {
    results := [];
    for k := 0 to |t.columns|
      invariant results == TableEvents(t.columns[..k], t.dates, shortWindow, longWindow)
    {
      var records := DetectColumn(t.columns[k], t.dates, shortWindow, longWindow);
      results := results + records;
      assert t.columns[..k + 1][..k] == t.columns[..k];
    }
    assert t.columns[..|t.columns|] == t.columns;
  }
}
