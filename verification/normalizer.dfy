/** Rescaling every column to its price on the first trading date of the period. */
module Normalizer {
  import opened Prices

  /** Positional indexing of the first row fails when the period holds no row. */
  datatype NormalizeError = NoRowInPeriod

  /**
   * Label slicing from `start` on a sorted index: the position of the first
   * date at or after `start` (|dates| when there is none).
   */
  function FirstKept(dates: seq<Date>, start: Date): (k: nat)
    requires StrictlyIncreasing(dates)
    ensures k <= |dates|
    ensures forall j :: 0 <= j < k ==> dates[j] < start
    ensures forall j :: k <= j < |dates| ==> start <= dates[j]
  {
    if |dates| == 0 || start <= dates[0] then 0 else 1 + FirstKept(dates[1..], start)
  }

  /** The reference row, when there is one, has a nonzero price in every column. */
  predicate NonzeroReference(t: Table, start: Date)
    requires ValidTable(t)
  {
    var k := FirstKept(t.dates, start);
    k < |t.dates| ==> forall c :: 0 <= c < |t.columns| ==> t.columns[c].prices[k] != 0.0
  }

  /** Rows k.. of one column, each divided by the price in row k. */
  function Rescale(prices: seq<real>, k: nat): seq<real>
    requires k < |prices| && prices[k] != 0.0
  {
    seq(|prices| - k, i requires 0 <= i < |prices| - k => prices[k + i] / prices[k])
  }

  /**
   * Keeps the rows dated at or after `start` (there is no upper bound) and
   * divides every column by its value in the first kept row.
   */
  function Normalize(t: Table, start: Date): (r: Result<Table, NormalizeError>)
    requires ValidTable(t) && NonzeroReference(t, start)
    ensures r.Err? <==> forall j :: 0 <= j < |t.dates| ==> t.dates[j] < start
    ensures r.Ok? ==> ValidTable(r.value)
    ensures r.Ok? ==> forall d :: d in r.value.dates <==> d in t.dates && start <= d
    ensures r.Ok? ==> 0 < |r.value.dates| <= |t.dates|
    ensures r.Ok? ==> r.value.dates == t.dates[|t.dates| - |r.value.dates|..]
    ensures r.Ok? ==> |r.value.columns| == |t.columns|
    ensures r.Ok? ==> forall c :: 0 <= c < |t.columns| ==> r.value.columns[c].name == t.columns[c].name
  {
    var k := FirstKept(t.dates, start);
    if k == |t.dates| then Err(NoRowInPeriod)
    else
      assert start <= t.dates[k];
      Ok(Table(t.dates[k..],
               seq(|t.columns|, c requires 0 <= c < |t.columns| =>
                     Column(t.columns[c].name, Rescale(t.columns[c].prices, k)))))
  }

  /** The first normalised row is exactly 1 in every column. */
  lemma NormalizedStartsAtOne(t: Table, start: Date)
    requires ValidTable(t) && NonzeroReference(t, start)
    requires Normalize(t, start).Ok?
    ensures var n := Normalize(t, start).value;
            |n.dates| > 0 && forall c :: 0 <= c < |n.columns| ==> n.columns[c].prices[0] == 1.0
  {
  }

  /**
   * Round trip: every normalised value times the reference price gives back
   * the raw price of the same date, the reference being the raw price in the
   * first kept row (the first date at or after `start`).
   */
  lemma NormalizedTimesReferenceIsRaw(t: Table, start: Date, c: nat, i: nat)
    requires ValidTable(t) && NonzeroReference(t, start)
    requires Normalize(t, start).Ok?
    requires c < |t.columns| && i < |Normalize(t, start).value.dates|
    ensures var n := Normalize(t, start).value;
            var k := FirstKept(t.dates, start);
            && k + i < |t.dates| && |n.columns[c].prices| == |n.dates|
            && n.dates[i] == t.dates[k + i]
            && n.columns[c].prices[i] * t.columns[c].prices[k] == t.columns[c].prices[k + i]
  {
    var n := Normalize(t, start).value;
    var k := FirstKept(t.dates, start);
    var raw := t.columns[c].prices;
    var scaled := Rescale(raw, k);
    assert n.columns[c].prices == scaled;
    assert scaled[i] == raw[k + i] / raw[k];
    QuotientTimesDivisor(raw[k + i], raw[k]);
  }

  lemma QuotientTimesDivisor(x: real, y: real)
    requires y != 0.0
    ensures (x / y) * y == x
  {
  }
}
