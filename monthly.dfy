/**
 * The monthly cash-flow chart's data (main.py:226-229): dates are read back,
 * rows whose date does not read are dropped, and the remaining amounts are
 * summed per calendar month, months in ascending order.
 */
module Monthly {
  import opened Results
  import opened Dates
  import opened Records

  /**
   * The month a row's stored date falls in, or `None` when the date does not
   * read or lies outside what a timestamp can hold (main.py:227-228).
   */
  function MonthOf(r: Row): (m: Option<YearMonth>)
    ensures m.Some? ==> 1677 <= m.value.year <= 2262 && 1 <= m.value.month <= 12
  {
    match ParseDate(r.date)
    case Some(d) => if InTimestampRange(d) then Some(MonthOfDate(d)) else None
    case None => None
  }

  /**
   * A row dated through the date widget is charted in its month exactly when
   * a timestamp can hold its date; otherwise the chart drops it.
   */
  lemma MonthOfWrittenDate(r: Row, d: Date)
    requires ValidDate(d) && r.date == FormatDate(d)
    ensures MonthOf(r) == if InTimestampRange(d) then Some(YearMonth(d.year, d.month)) else None
  {
    ParseFormatDate(d);
  }

  /** Text that is not a `YYYY-MM-DD` date is never charted. */
  lemma MonthOfUnreadable(r: Row)
    requires forall d :: !(ValidDate(d) && r.date == FormatDate(d))
    ensures MonthOf(r).None?
  {
    if ParseDate(r.date).Some? {
      FormatParseDate(r.date);
      assert false;
    }
  }

  /** Reference definition: the sum of the amounts of the rows dated in month `m`. */
  function MonthTotal(rows: seq<Row>, m: YearMonth): real {
    Sum(Filter(rows, (x: Row) => MonthOf(x) == Some(m)))
  }

  /** Some row of the table is dated in month `m`. */
  predicate HasMonth(rows: seq<Row>, m: YearMonth) {
    exists i :: 0 <= i < |rows| && MonthOf(rows[i]) == Some(m)
  }

  /** A grouped series: one (month, total) bar per month. */
  type MonthTable = seq<(YearMonth, real)>

  predicate Ascending(t: MonthTable) {
    forall i, j :: 0 <= i < j < |t| ==> Earlier(t[i].0, t[j].0)
  }

  predicate Listed(t: MonthTable, m: YearMonth) {
    exists i :: 0 <= i < |t| && t[i].0 == m
  }

  /** The total shown for month `m`, zero when the month has no bar. */
  function Lookup(t: MonthTable, m: YearMonth): real {
    if t == [] then 0.0 else if t[0].0 == m then t[0].1 else Lookup(t[1..], m)
  }

  lemma {:induction false} LookupAbsent(t: MonthTable, m: YearMonth)
    requires !Listed(t, m)
    ensures Lookup(t, m) == 0.0
  {
    if t != [] {
      assert t[0].0 != m;
      forall i | 0 <= i < |t[1..]| ensures t[1..][i].0 != m {
        assert t[1..][i] == t[i + 1];
      }
      LookupAbsent(t[1..], m);
    }
  }

  /** In an ascending series each bar is the one `Lookup` finds for its month. */
  lemma {:induction false} LookupAt(t: MonthTable, i: nat)
    requires Ascending(t) && i < |t|
    ensures Lookup(t, t[i].0) == t[i].1
  {
    if i > 0 {
      assert Earlier(t[0].0, t[i].0);
      EarlierTotal(t[0].0, t[i].0);
      assert Ascending(t[1..]);
      LookupAt(t[1..], i - 1);
    }
  }

  /** Adds the amount `a` to month `m`'s bar, inserting the bar in order when it is new. */
  function AddToMonth(t: MonthTable, m: YearMonth, a: real): (r: MonthTable)
    requires Ascending(t)
    ensures Ascending(r)
    ensures forall n :: Listed(r, n) <==> Listed(t, n) || n == m
    ensures forall n :: Lookup(r, n) == Lookup(t, n) + (if n == m then a else 0.0)
  {
    if t == [] then
      assert [(m, a)][0].0 == m;
      [(m, a)]
    else if t[0].0 == m then
      AddToListed(t, m, a);
      [(m, t[0].1 + a)] + t[1..]
    else if Earlier(m, t[0].0) then
      AddBefore(t, m, a);
      [(m, a)] + t
    else
      assert Ascending(t[1..]);
      var rest := AddToMonth(t[1..], m, a);
      AddAfter(t, m, a, rest);
      [t[0]] + rest
  }

  lemma AddToListed(t: MonthTable, m: YearMonth, a: real)
    requires Ascending(t) && t != [] && t[0].0 == m
    ensures var r := [(m, t[0].1 + a)] + t[1..];
      && Ascending(r)
      && (forall n :: Listed(r, n) <==> Listed(t, n) || n == m)
      && (forall n :: Lookup(r, n) == Lookup(t, n) + (if n == m then a else 0.0))
  {
    var r := [(m, t[0].1 + a)] + t[1..];
    assert r[1..] == t[1..];
    forall n ensures Listed(r, n) <==> Listed(t, n) || n == m {
      if Listed(t, n) {
        var i :| 0 <= i < |t| && t[i].0 == n;
        assert r[i].0 == n;
      }
      if Listed(r, n) {
        var i :| 0 <= i < |r| && r[i].0 == n;
        assert t[i].0 == n;
      }
    }
  }

  lemma AddBefore(t: MonthTable, m: YearMonth, a: real)
    requires Ascending(t) && t != [] && Earlier(m, t[0].0)
    ensures var r := [(m, a)] + t;
      && Ascending(r)
      && (forall n :: Listed(r, n) <==> Listed(t, n) || n == m)
      && (forall n :: Lookup(r, n) == Lookup(t, n) + (if n == m then a else 0.0))
  {
    var r := [(m, a)] + t;
    assert r[1..] == t;
    forall j | 0 < j < |r| ensures Earlier(m, r[j].0) {
      if j > 1 {
        EarlierTransitive(m, t[0].0, t[j - 1].0);
      }
    }
    assert !Listed(t, m) by {
      if Listed(t, m) {
        var i :| 0 <= i < |t| && t[i].0 == m;
        if i > 0 {
          EarlierTransitive(m, t[0].0, t[i].0);
        }
        EarlierTotal(m, m);
      }
    }
    LookupAbsent(t, m);
    forall n ensures Listed(r, n) <==> Listed(t, n) || n == m {
      if Listed(t, n) {
        var i :| 0 <= i < |t| && t[i].0 == n;
        assert r[i + 1].0 == n;
      }
      if Listed(r, n) && n != m {
        var i :| 0 <= i < |r| && r[i].0 == n;
        assert t[i - 1].0 == n;
      }
    }
  }

  lemma AddAfter(t: MonthTable, m: YearMonth, a: real, rest: MonthTable)
    requires Ascending(t) && t != [] && t[0].0 != m && !Earlier(m, t[0].0)
    requires Ascending(rest)
    requires forall n :: Listed(rest, n) <==> Listed(t[1..], n) || n == m
    requires forall n :: Lookup(rest, n) == Lookup(t[1..], n) + (if n == m then a else 0.0)
    ensures var r := [t[0]] + rest;
      && Ascending(r)
      && (forall n :: Listed(r, n) <==> Listed(t, n) || n == m)
      && (forall n :: Lookup(r, n) == Lookup(t, n) + (if n == m then a else 0.0))
  {
    var r := [t[0]] + rest;
    assert r[1..] == rest;
    EarlierTotal(m, t[0].0);
    forall j | 0 < j < |r| ensures Earlier(t[0].0, r[j].0) {
      assert Listed(rest, r[j].0) by { assert rest[j - 1].0 == r[j].0; }
      if r[j].0 != m {
        var i :| 0 <= i < |t[1..]| && t[1..][i].0 == r[j].0;
        assert t[i + 1].0 == r[j].0;
      }
    }
    forall n ensures Listed(r, n) <==> Listed(t, n) || n == m {
      if Listed(t, n) && n != t[0].0 {
        var i :| 0 <= i < |t| && t[i].0 == n;
        assert t[1..][i - 1].0 == n;
        assert Listed(t[1..], n);
        var k :| 0 <= k < |rest| && rest[k].0 == n;
        assert r[k + 1].0 == n;
      }
      if Listed(r, n) && n != m && n != t[0].0 {
        var i :| 0 <= i < |r| && r[i].0 == n;
        assert rest[i - 1].0 == n;
        assert Listed(rest, n);
        var k :| 0 <= k < |t[1..]| && t[1..][k].0 == n;
        assert t[k + 1].0 == n;
      }
      if n == t[0].0 {
        assert r[0].0 == n;
      }
      if n == m {
        assert Listed(rest, m);
        var k :| 0 <= k < |rest| && rest[k].0 == n;
        assert r[k + 1].0 == n;
      }
    }
  }

  /**
   * `groupby(to_period("M"))["Amount"].sum()` over the rows whose date reads:
   * the series of (month, total) bars.
   */
  function MonthlyTotals(rows: seq<Row>): (t: MonthTable)
    ensures Ascending(t)
  {
    if rows == [] then []
    else
      var rest := MonthlyTotals(rows[1..]);
      match MonthOf(rows[0])
      case None => rest
      case Some(m) => AddToMonth(rest, m, rows[0].amount)
  }

  /**
   * The bars are exactly the months some readable date falls in, ascending,
   * and each bar carries the sum of the amounts of that month's rows.
   */
  lemma {:induction false} MonthlyTotalsCorrect(rows: seq<Row>)
    ensures forall m :: Listed(MonthlyTotals(rows), m) <==> HasMonth(rows, m)
    ensures forall m :: Lookup(MonthlyTotals(rows), m) == MonthTotal(rows, m)
  {
    if rows != [] {
      MonthlyTotalsCorrect(rows[1..]);
      forall m ensures HasMonth(rows, m) <==> MonthOf(rows[0]) == Some(m) || HasMonth(rows[1..], m) {
        HasMonthStep(rows, m);
      }
      forall m ensures MonthTotal(rows, m)
                    == (if MonthOf(rows[0]) == Some(m) then rows[0].amount else 0.0) + MonthTotal(rows[1..], m) {
        MonthTotalStep(rows, m);
      }
    }
  }

  lemma HasMonthStep(rows: seq<Row>, m: YearMonth)
    requires rows != []
    ensures HasMonth(rows, m) <==> MonthOf(rows[0]) == Some(m) || HasMonth(rows[1..], m)
  {
    if HasMonth(rows, m) && MonthOf(rows[0]) != Some(m) {
      var i :| 0 <= i < |rows| && MonthOf(rows[i]) == Some(m);
      assert rows[1..][i - 1] == rows[i];
    }
    if HasMonth(rows[1..], m) {
      var i :| 0 <= i < |rows[1..]| && MonthOf(rows[1..][i]) == Some(m);
      assert rows[i + 1] == rows[1..][i];
    }
  }

  lemma MonthTotalStep(rows: seq<Row>, m: YearMonth)
    requires rows != []
    ensures MonthTotal(rows, m)
         == (if MonthOf(rows[0]) == Some(m) then rows[0].amount else 0.0) + MonthTotal(rows[1..], m)
  {
    var keep := (x: Row) => MonthOf(x) == Some(m);
    var rest := Filter(rows[1..], keep);
    if keep(rows[0]) {
      assert Filter(rows, keep) == [rows[0]] + rest;
      SumCons(rows[0], rest);
    } else {
      assert Filter(rows, keep) == [] + rest;
      assert [] + rest == rest;
    }
  }

  /** Each bar, read by position, carries its month's total. */
  lemma MonthlyBars(rows: seq<Row>, i: nat)
    requires i < |MonthlyTotals(rows)|
    ensures HasMonth(rows, MonthlyTotals(rows)[i].0)
    ensures MonthlyTotals(rows)[i].1 == MonthTotal(rows, MonthlyTotals(rows)[i].0)
  {
    var t := MonthlyTotals(rows);
    MonthlyTotalsCorrect(rows);
    LookupAt(t, i);
    assert Listed(t, t[i].0);
  }
}
