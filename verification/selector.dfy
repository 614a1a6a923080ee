/** Reduction of the crossover records to the latest one per stock within a reporting period. */
module Selector {
  import opened Prices
  import opened Crossovers

  /** Selecting the Date column of a frame built from no records fails. */
  datatype SelectError = MissingDateColumn

  predicate InPeriod(e: Event, start: Date, end: Date)
  {
    start <= e.date <= end
  }

  /** The boolean mask on the Date column, inclusive at both ends. */
  function FilterPeriod(events: seq<Event>, start: Date, end: Date): (r: seq<Event>)
    ensures forall e :: e in r <==> e in events && InPeriod(e, start, end)
  {
    if events == [] then []
    else (if InPeriod(events[0], start, end) then [events[0]] else []) + FilterPeriod(events[1..], start, end)
  }

  predicate SortedByDate(s: seq<Event>)
  {
    forall i, j :: 0 <= i < j < |s| ==> s[i].date <= s[j].date
  }

  lemma PrependEarliest(e: Event, s: seq<Event>)
    requires SortedByDate(s)
    requires forall x :: x in s ==> e.date <= x.date
    ensures SortedByDate([e] + s)
  {
    var r := [e] + s;
    forall i, j | 0 <= i < j < |r|
      ensures r[i].date <= r[j].date
    {
      assert r[j] == s[j - 1];
      if i > 0 {
        assert r[i] == s[i - 1];
      }
    }
  }

  /** Puts `e` before the first record dated on or after it. */
  function Insert(e: Event, s: seq<Event>): seq<Event>
  {
    if s == [] || e.date <= s[0].date then [e] + s
    else [s[0]] + Insert(e, s[1..])
  }

  /** Inserting into date-ordered records keeps them ordered and adds exactly `e`. */
  lemma {:induction false} InsertKeepsOrder(e: Event, s: seq<Event>)
    requires SortedByDate(s)
    ensures SortedByDate(Insert(e, s)) && multiset(Insert(e, s)) == multiset(s) + multiset{e}
  {
    if s == [] || e.date <= s[0].date {
      PrependEarliest(e, s);
    } else {
      assert s == [s[0]] + s[1..];
      InsertKeepsOrder(e, s[1..]);
      var rest := Insert(e, s[1..]);
      forall x | x in rest
        ensures s[0].date <= x.date
      {
        assert x in multiset(rest);
      }
      PrependEarliest(s[0], rest);
    }
  }

  /** Sorting by date: the result is ordered and holds the same records. */
  function SortByDate(s: seq<Event>): (r: seq<Event>)
    ensures SortedByDate(r) && multiset(r) == multiset(s)
  {
    if s == [] then []
    else
      assert s == [s[0]] + s[1..];
      InsertKeepsOrder(s[0], SortByDate(s[1..]));
      Insert(s[0], SortByDate(s[1..]))
  }

  predicate DistinctStocks(s: seq<Event>)
  {
    forall i, j :: 0 <= i < j < |s| ==> s[i].stock != s[j].stock
  }

  predicate HasStock(s: seq<Event>, stock: string)
  {
    exists e :: e in s && e.stock == stock
  }

  /** Grouping by stock and keeping the last row of each group, in the rows' order. */
  function LastPerStock(s: seq<Event>): seq<Event>
  {
    if s == [] then []
    else (if HasStock(s[1..], s[0].stock) then [] else [s[0]]) + LastPerStock(s[1..])
  }

  /**
   * Keeps the records dated in [start, end], sorts them by date and keeps the
   * last one per stock. No records at all is an error: the frame built from
   * them has no Date column.
   */
  function SelectLatest(events: seq<Event>, start: Date, end: Date): (r: Result<seq<Event>, SelectError>)
    ensures r.Err? <==> events == []
  {
    if events == [] then Err(MissingDateColumn)
    else Ok(LastPerStock(SortByDate(FilterPeriod(events, start, end))))
  }

  lemma {:induction false} LastPerStockSubset(s: seq<Event>)
    ensures forall e :: e in LastPerStock(s) ==> e in s
  {
    if s != [] {
      LastPerStockSubset(s[1..]);
    }
  }

  lemma {:induction false} LastPerStockDistinct(s: seq<Event>)
    ensures DistinctStocks(LastPerStock(s))
  {
    if s != [] {
      LastPerStockDistinct(s[1..]);
      LastPerStockSubset(s[1..]);
      var rest := LastPerStock(s[1..]);
      if !HasStock(s[1..], s[0].stock) {
        var r := [s[0]] + rest;
        forall i, j | 0 <= i < j < |r|
          ensures r[i].stock != r[j].stock
        {
          if i == 0 {
            assert r[j] == rest[j - 1] && rest[j - 1] in rest;
          } else {
            assert r[i] == rest[i - 1] && r[j] == rest[j - 1];
          }
        }
      }
    }
  }

  lemma {:induction false} LastPerStockLatest(s: seq<Event>)
    requires SortedByDate(s)
    ensures forall x, y :: x in LastPerStock(s) && y in s && y.stock == x.stock ==> y.date <= x.date
  {
    if s != [] {
      LastPerStockLatest(s[1..]);
      LastPerStockSubset(s[1..]);
      forall x, y | x in LastPerStock(s) && y in s && y.stock == x.stock
        ensures y.date <= x.date
      {
        if x in LastPerStock(s[1..]) {
          if y == s[0] {
            assert x in s[1..];
          }
        } else {
          assert x == s[0] && !HasStock(s[1..], x.stock);
          assert y == s[0];
        }
      }
    }
  }

  lemma {:induction false} LastPerStockComplete(s: seq<Event>)
    ensures forall y :: y in s ==> HasStock(LastPerStock(s), y.stock)
  {
    if s != [] {
      LastPerStockComplete(s[1..]);
      forall y | y in s
        ensures HasStock(LastPerStock(s), y.stock)
      {
        if y in s[1..] {
          var e :| e in LastPerStock(s[1..]) && e.stock == y.stock;
          assert e in LastPerStock(s);
        } else if HasStock(s[1..], s[0].stock) {
          var e :| e in s[1..] && e.stock == y.stock;
          var f :| f in LastPerStock(s[1..]) && f.stock == e.stock;
          assert f in LastPerStock(s);
        } else {
          assert s[0] in LastPerStock(s);
        }
      }
    }
  }

  lemma SortedHeadFirst(s: seq<Event>)
    requires SortedByDate(s) && s != []
    ensures forall x :: x in s[1..] ==> s[0].date <= x.date
  {
    forall x | x in s[1..]
      ensures s[0].date <= x.date
    {
      var k :| 0 <= k < |s[1..]| && s[1..][k] == x;
      assert s[k + 1] == x;
    }
  }

  lemma {:induction false} LastPerStockSorted(s: seq<Event>)
    requires SortedByDate(s)
    ensures SortedByDate(LastPerStock(s))
  {
    if s != [] {
      assert SortedByDate(s[1..]);
      LastPerStockSorted(s[1..]);
      LastPerStockSubset(s[1..]);
      SortedHeadFirst(s);
      if !HasStock(s[1..], s[0].stock) {
        PrependEarliest(s[0], LastPerStock(s[1..]));
      }
    }
  }

  /** Every selected record is one of the input records and lies in [start, end]. */
  lemma SelectedAreQualifyingInputs(events: seq<Event>, start: Date, end: Date)
    requires events != []
    ensures forall e :: e in SelectLatest(events, start, end).value ==> e in events && InPeriod(e, start, end)
  {
    var sorted := SortByDate(FilterPeriod(events, start, end));
    LastPerStockSubset(sorted);
    forall e | e in LastPerStock(sorted)
      ensures e in events && InPeriod(e, start, end)
    {
      assert e in multiset(sorted);
    }
  }

  /** At most one record per stock is selected. */
  lemma SelectedStocksDistinct(events: seq<Event>, start: Date, end: Date)
    requires events != []
    ensures DistinctStocks(SelectLatest(events, start, end).value)
  {
    LastPerStockDistinct(SortByDate(FilterPeriod(events, start, end)));
  }

  /** The selected record of a stock is its latest record within [start, end]. */
  lemma SelectedIsLatest(events: seq<Event>, start: Date, end: Date)
    requires events != []
    ensures forall x, y ::
              x in SelectLatest(events, start, end).value && y in events && InPeriod(y, start, end)
              && y.stock == x.stock
              ==> y.date <= x.date
  {
    var filtered := FilterPeriod(events, start, end);
    var sorted := SortByDate(filtered);
    LastPerStockLatest(sorted);
    forall x, y | x in LastPerStock(sorted) && y in events && InPeriod(y, start, end) && y.stock == x.stock
      ensures y.date <= x.date
    {
      assert y in multiset(filtered);
      assert y in sorted;
    }
  }

  /** A stock with a record in [start, end] has a selected record; every other stock is absent. */
  lemma SelectedStocksAreQualifyingStocks(events: seq<Event>, start: Date, end: Date, stock: string)
    requires events != []
    ensures HasStock(SelectLatest(events, start, end).value, stock) <==>
              exists y :: y in events && InPeriod(y, start, end) && y.stock == stock
  {
    var filtered := FilterPeriod(events, start, end);
    var sorted := SortByDate(filtered);
    LastPerStockComplete(sorted);
    SelectedAreQualifyingInputs(events, start, end);
    if y :| y in events && InPeriod(y, start, end) && y.stock == stock {
      assert y in multiset(filtered);
      assert y in sorted;
    }
  }

  /** The selection is in non-decreasing date order. */
  lemma SelectedSortedByDate(events: seq<Event>, start: Date, end: Date)
    requires events != []
    ensures SortedByDate(SelectLatest(events, start, end).value)
  {
    LastPerStockSorted(SortByDate(FilterPeriod(events, start, end)));
  }

  /**
   * A one-day period holding exactly one record, and no other record on that
   * date, selects exactly that record.
   */
  lemma SingleDayPeriod(events: seq<Event>, e: Event)
    requires e in events
    requires forall y :: y in events && y.date == e.date ==> y == e
    ensures SelectLatest(events, e.date, e.date) == Ok([e])
  {
    var r := SelectLatest(events, e.date, e.date).value;
    SelectedAreQualifyingInputs(events, e.date, e.date);
    forall i | 0 <= i < |r|
      ensures r[i] == e
    {
      assert r[i] in r;
    }
    SelectedStocksAreQualifyingStocks(events, e.date, e.date, e.stock);
    assert r != [];
    SelectedStocksDistinct(events, e.date, e.date);
    assert !(r[0].stock != r[|r| - 1].stock);
    assert |r| == 1;
    assert r == [e];
  }

  lemma SameStockRecordsHaveDistinctDates(events: seq<Event>, x: Event, y: Event)
    requires SameStockDatesIncrease(events)
    requires x in events && y in events && x.stock == y.stock && x != y
    ensures x.date != y.date
  {
    var a :| 0 <= a < |events| && events[a] == x;
    var b :| 0 <= b < |events| && events[b] == y;
    if a < b {
      assert events[a].date < events[b].date;
    } else {
      assert events[b].date < events[a].date;
    }
  }

  /**
   * On the detector's own records no stock has two records on one date, so
   * the selected record of a stock is strictly later than every other
   * qualifying record of that stock.
   */
  lemma DetectorRecordsHaveStrictLatest(t: Table, shortWindow: nat, longWindow: nat, start: Date, end: Date)
    requires ValidTable(t) && 1 <= shortWindow && 1 <= longWindow
    requires TableEvents(t.columns, t.dates, shortWindow, longWindow) != []
    ensures var events := TableEvents(t.columns, t.dates, shortWindow, longWindow);
            forall x, y ::
              x in SelectLatest(events, start, end).value && y in events && InPeriod(y, start, end)
              && y.stock == x.stock && y != x
              ==> y.date < x.date
  {
    var events := TableEvents(t.columns, t.dates, shortWindow, longWindow);
    TableEventsPerStockIncrease(t.columns, t.dates, shortWindow, longWindow);
    SelectedAreQualifyingInputs(events, start, end);
    SelectedIsLatest(events, start, end);
    forall x, y | x in SelectLatest(events, start, end).value && y in events && InPeriod(y, start, end)
                  && y.stock == x.stock && y != x
      ensures y.date < x.date
    {
      SameStockRecordsHaveDistinctDates(events, x, y);
    }
  }
}
