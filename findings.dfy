/**
 * Two places where main.py does not do what it evidently means to, each
 * modelled as written beside an input that shows the difference. The rest of
 * the model uses the corrected behaviour (module Tracker).
 */
module Findings {
  import opened Results
  import opened Amounts
  import opened Records
  import opened Tracker

  /** ------------------------------------------------------------------
   *  Edit and delete find the selected row from its displayed text
   *  (main.py:128-130, 156, 174-176, 182).
   *  ------------------------------------------------------------------ */

  /**
   * The record that edit and delete look for, as written: the Amount is
   * `float()` of the two-decimal text shown in the tab, not the stored amount.
   * `None` when that text does not read.
   */
  function ShownTarget(section: Section, shown: Cells): Option<Row> {
    match ParseAmount(shown.amount)
    case Some(a) => Some(Row(section, shown.name, a, shown.date))
    case None => None
  }

  /** `delete_entry` as written, on the cells of the selected line. */
  function DeleteAsWritten(rows: seq<Row>, section: Section, shown: Cells): seq<Row> {
    match ShownTarget(section, shown)
    case Some(t) => RemoveAll(rows, t)
    case None => rows
  }

  /** `edit_entry` as written, on the cells of the selected line and validated answers. */
  function EditAsWritten(rows: seq<Row>, section: Section, shown: Cells, name: string, amount: real, date: string): seq<Row> {
    match ShownTarget(section, shown)
    case Some(t) => EditFirst(rows, t, name, amount, date)
    case None => rows
  }

  /** The row used by the two examples below: an amount with a third decimal. */
  function Rent(): Row {
    Row(Savings, "Rent", 1.234, "2024-01-05")
  }

  lemma ShownRentAmount()
    ensures ShownTarget(Savings, Display(Rent())) == Some(Row(Savings, "Rent", 1.23, "2024-01-05"))
  {
    assert RoundHalfEven(1.234 * 100.0) == 123;
    ParseCentsText(123);
  }

  /** Deleting the only row, selected in its tab, leaves it in place when its amount has three decimals. */
  lemma DeleteAsWrittenMissesRow()
    ensures DeleteAsWritten([Rent()], Savings, Display(Rent())) == [Rent()]
  {
    ShownRentAmount();
    var t := Row(Savings, "Rent", 1.23, "2024-01-05");
    RentIsNotSearched(t);
    DeleteAsWrittenAbsent([Rent()], Savings, Display(Rent()), t);
  }

  /** A row with amount 1.23, such as the one searched for, is not the stored 1.234 row. */
  lemma RentIsNotSearched(t: Row)
    requires t.amount == 1.23
    ensures t !in [Rent()]
  {
  }

  /** When the row searched for is not in the table, delete as written changes nothing. */
  lemma DeleteAsWrittenAbsent(rows: seq<Row>, section: Section, shown: Cells, t: Row)
    requires ShownTarget(section, shown) == Some(t)
    requires t !in rows
    ensures DeleteAsWritten(rows, section, shown) == rows
  {
    RemoveAbsent(rows, t);
  }

  /** Editing that row changes nothing either. */
  lemma EditAsWrittenMissesRow(name: string, amount: real, date: string)
    ensures EditAsWritten([Rent()], Savings, Display(Rent()), name, amount, date) == [Rent()]
  {
    ShownRentAmount();
    assert Rent() != Row(Savings, "Rent", 1.23, "2024-01-05");
  }

  /** As written, delete does what it should when the amount is a whole number of hundredths. */
  lemma DeleteAsWrittenOnCents(rows: seq<Row>, r: Row, c: int)
    requires r.amount == c as real / 100.0
    ensures DeleteAsWritten(rows, r.section, Display(r)) == RemoveAll(rows, Target(r.section, Selection(r.name, r.amount, r.date)))
  {
    ShownTargetOnCents(r, c);
    assert Target(r.section, Selection(r.name, r.amount, r.date)) == r;
  }

  /**
   * The converse: for an amount that is not a whole number of hundredths, the
   * selected row survives the delete as written, which then differs from the
   * intended delete.
   */
  lemma DeleteAsWrittenMissesOffCents(rows: seq<Row>, r: Row)
    requires r in rows
    requires !InCents(r.amount)
    ensures r in DeleteAsWritten(rows, r.section, Display(r))
    ensures DeleteAsWritten(rows, r.section, Display(r)) != RemoveAll(rows, Target(r.section, Selection(r.name, r.amount, r.date)))
  {
    ParseFormat2InCents(r.amount);
    var t := Row(r.section, r.name, ParseAmount(Format2(r.amount)).value, r.date);
    assert ShownTarget(r.section, Display(r)) == Some(t);
    assert multiset(RemoveAll(rows, t))[r] == multiset(rows)[r];
    assert Target(r.section, Selection(r.name, r.amount, r.date)) == r;
  }

  lemma ShownTargetOnCents(r: Row, c: int)
    requires r.amount == c as real / 100.0
    ensures ShownTarget(r.section, Display(r)) == Some(r)
  {
    var t := Format2(r.amount);
    assert t == Format2(c as real / 100.0);
    ParseFormat2Exact(c);
    assert ParseAmount(t) == Some(r.amount);
  }

  /** ------------------------------------------------------------------
   *  The tab places each row at its DataFrame label (main.py:192-196).
   *  ------------------------------------------------------------------ */

  /**
   * What each line of a tab holds: the row whose cells (`Display`) were last
   * written to it, or `None` for a line never written.
   */
  type Lines = seq<Option<Row>>

  /**
   * `setRowCount(n)` (main.py:192): lines below `n` keep what they held, lines
   * past the old count are blank, lines from `n` on are gone.
   */
  function Resize(before: Lines, n: nat): (after: Lines)
    ensures |after| == n
    ensures forall k :: 0 <= k < n ==> after[k] == if k < |before| then before[k] else None
  {
    seq(n, k requires 0 <= k < n => if k < |before| then before[k] else None)
  }

  /**
   * The `setItem` calls of the loop (main.py:193-196) for the table's rows
   * taken in order: a row of the section goes to the line numbered by its
   * label, and a line number past the row count is ignored by the widget.
   */
  function Placed(lines: Lines, rows: seq<Row>, labels: seq<nat>, section: Section): (after: Lines)
    requires |labels| == |rows|
    ensures |after| == |lines|
  {
    if rows == [] then lines
    else
      var n := |rows| - 1;
      var earlier := Placed(lines, rows[..n], labels[..n], section);
      if rows[n].section == section && labels[n] < |earlier| then earlier[labels[n] := Some(rows[n])] else earlier
  }

  /**
   * The lines a tab ends up with, as written, from the lines it showed
   * before, the table and the table's labels.
   */
  function TableAsWritten(before: Lines, rows: seq<Row>, labels: seq<nat>, section: Section): (t: Lines)
    requires |labels| == |rows|
    ensures |t| == |SectionRows(rows, section)|
  {
    SectionCountIsLength(rows, section);
    Placed(Resize(before, SectionCount(rows, section)), rows, labels, section)
  }

  /** `len(df)` (main.py:192): how many rows of the table have the section. */
  function SectionCount(rows: seq<Row>, section: Section): nat {
    if rows == [] then 0 else (if rows[0].section == section then 1 else 0) + SectionCount(rows[1..], section)
  }

  lemma {:induction false} SectionCountIsLength(rows: seq<Row>, section: Section)
    ensures SectionCount(rows, section) == |SectionRows(rows, section)|
  {
    if rows != [] {
      assert rows == [rows[0]] + rows[1..];
      SectionRowsCons(rows[0], rows[1..], section);
      SectionCountIsLength(rows[1..], section);
    }
  }

  lemma CountCons(r: Row, rest: seq<Row>, section: Section)
    ensures SectionCount([r] + rest, section) == (if r.section == section then 1 else 0) + SectionCount(rest, section)
  {
    assert ([r] + rest)[1..] == rest;
  }

  /** `refresh_table` as written, on the lines the tab showed before. */
  method RefreshTableAsWritten(before: Lines, rows: seq<Row>, labels: seq<nat>, section: Section)
    returns (table: array<Option<Row>>)
    requires |labels| == |rows|
    ensures fresh(table)
    ensures table[..] == TableAsWritten(before, rows, labels, section)
  {
    var count := SectionCount(rows, section);
    table := new Option<Row>[count];
    var k := 0;
    while k < count
      invariant 0 <= k <= count && table.Length == count
      invariant forall i :: 0 <= i < k ==> table[i] == if i < |before| then before[i] else None
    {
      table[k] := if k < |before| then before[k] else None;
      k := k + 1;
    }
    assert table[..] == Resize(before, count);
    var p := 0;
    while p < |rows|
      invariant 0 <= p <= |rows| && table.Length == count
      invariant table[..] == Placed(Resize(before, count), rows[..p], labels[..p], section)
    {
      assert rows[..p + 1][..p] == rows[..p] && labels[..p + 1][..p] == labels[..p];
      if rows[p].section == section && labels[p] < count {
        table[labels[p]] := Some(rows[p]);
      }
      p := p + 1;
    }
    assert rows[..p] == rows && labels[..p] == labels;
  }

  /** Placing one more row after the others. */
  lemma PlacedLast(lines: Lines, rows: seq<Row>, labels: seq<nat>, r: Row, l: nat, section: Section)
    requires |labels| == |rows|
    ensures var e := Placed(lines, rows, labels, section);
      Placed(lines, rows + [r], labels + [l], section)
        == if r.section == section && l < |e| then e[l := Some(r)] else e
  {
    assert (rows + [r])[..|rows|] == rows;
    assert (labels + [l])[..|labels|] == labels;
  }

  /** The section filter on a table led by `r`. */
  lemma SectionRowsCons(r: Row, rest: seq<Row>, section: Section)
    ensures SectionRows([r] + rest, section) == (if r.section == section then [r] else []) + SectionRows(rest, section)
  {
    assert ([r] + rest)[1..] == rest;
  }

  /**
   * A freshly built Savings tab for a loan followed by a saving: the tab gets
   * one blank line and never shows the saving.
   */
  lemma TableAsWrittenLeavesGap()
    ensures var loan := Row(Loans, "Car", 100.0, "2024-01-05");
      var saving := Row(Savings, "Fund", 50.0, "2024-01-06");
      && TableAsWritten([], [loan, saving], [0, 1], Savings) == [None]
      && Some(saving) !in TableAsWritten([], [loan, saving], [0, 1], Savings)
  {
    var loan := Row(Loans, "Car", 100.0, "2024-01-05");
    var saving := Row(Savings, "Fund", 50.0, "2024-01-06");
    CountCons(saving, [], Savings);
    CountCons(loan, [saving], Savings);
    assert [saving] + [] == [saving] && [loan] + [saving] == [loan, saving];
    var base: Lines := [None];
    assert Resize([], 1) == base;
    PlacedLast(base, [], [], loan, 0, Savings);
    PlacedLast(base, [loan], [0], saving, 1, Savings);
    assert [] + [loan] == [loan] && [] + [0] == [0];
    assert [loan] + [saving] == [loan, saving] && [0] + [1] == [0, 1];
  }

  function S0(): Row { Row(Savings, "A", 10.0, "2024-01-01") }
  function S1(): Row { Row(Savings, "B", 20.0, "2024-01-02") }
  function L2(): Row { Row(Loans, "C", 30.0, "2024-01-03") }
  function S3(): Row { Row(Savings, "D", 40.0, "2024-01-04") }
  function S5(): Row { Row(Savings, "E", 50.0, "2024-01-05") }

  /** How many Savings rows `[S0, S1, L2, S3]`, `[S0, L2, S3]` and `[S0, L2, S3, S5]` hold. */
  lemma CountOfTail()
    ensures SectionCount([L2(), S3()], Savings) == 1
  {
    CountCons(S3(), [], Savings);
    assert [S3()] + [] == [S3()];
    CountCons(L2(), [S3()], Savings);
    assert [L2()] + [S3()] == [L2(), S3()];
  }

  lemma CountAfterDelete()
    ensures SectionCount([S0(), L2(), S3()], Savings) == 2
  {
    CountOfTail();
    CountCons(S0(), [L2(), S3()], Savings);
    assert [S0()] + [L2(), S3()] == [S0(), L2(), S3()];
  }

  lemma CountLoaded()
    ensures SectionCount([S0(), S1(), L2(), S3()], Savings) == 3
  {
    CountOfTail();
    CountCons(S1(), [L2(), S3()], Savings);
    assert [S1()] + [L2(), S3()] == [S1(), L2(), S3()];
    CountCons(S0(), [S1(), L2(), S3()], Savings);
    assert [S0()] + [S1(), L2(), S3()] == [S0(), S1(), L2(), S3()];
  }

  lemma CountAfterAdd()
    ensures SectionCount([S0(), L2(), S3(), S5()], Savings) == 3
  {
    CountCons(S5(), [], Savings);
    assert [S5()] + [] == [S5()];
    CountCons(S3(), [S5()], Savings);
    assert [S3()] + [S5()] == [S3(), S5()];
    CountCons(L2(), [S3(), S5()], Savings);
    assert [L2()] + [S3(), S5()] == [L2(), S3(), S5()];
    CountCons(S0(), [L2(), S3(), S5()], Savings);
    assert [S0()] + [L2(), S3(), S5()] == [S0(), L2(), S3(), S5()];
  }

  lemma PlacedLoadedFirstTwo(base: Lines)
    requires |base| == 3
    ensures Placed(base, [S0(), S1()], [0, 1], Savings) == [Some(S0()), Some(S1()), base[2]]
  {
    PlacedLast(base, [], [], S0(), 0, Savings);
    assert [] + [S0()] == [S0()] && [] + [0] == [0];
    PlacedLast(base, [S0()], [0], S1(), 1, Savings);
    assert [S0()] + [S1()] == [S0(), S1()] && [0] + [1] == [0, 1];
  }

  lemma PlacedLoaded(base: Lines)
    requires |base| == 3
    ensures Placed(base, [S0(), S1(), L2(), S3()], [0, 1, 2, 3], Savings) == [Some(S0()), Some(S1()), base[2]]
  {
    PlacedLoadedFirstTwo(base);
    PlacedLast(base, [S0(), S1()], [0, 1], L2(), 2, Savings);
    assert [S0(), S1()] + [L2()] == [S0(), S1(), L2()] && [0, 1] + [2] == [0, 1, 2];
    PlacedLast(base, [S0(), S1(), L2()], [0, 1, 2], S3(), 3, Savings);
    assert [S0(), S1(), L2()] + [S3()] == [S0(), S1(), L2(), S3()] && [0, 1, 2] + [3] == [0, 1, 2, 3];
  }

  lemma PlacedAfterDelete(base: Lines)
    requires |base| == 2
    ensures Placed(base, [S0(), L2(), S3()], [0, 2, 3], Savings) == [Some(S0()), base[1]]
  {
    PlacedLast(base, [], [], S0(), 0, Savings);
    assert [] + [S0()] == [S0()] && [] + [0] == [0];
    PlacedLast(base, [S0()], [0], L2(), 2, Savings);
    assert [S0()] + [L2()] == [S0(), L2()] && [0] + [2] == [0, 2];
    PlacedLast(base, [S0(), L2()], [0, 2], S3(), 3, Savings);
    assert [S0(), L2()] + [S3()] == [S0(), L2(), S3()] && [0, 2] + [3] == [0, 2, 3];
  }

  /** The Savings tab of `[S0, S1, L2, S3]` labelled 0 to 3, built on a fresh widget. */
  lemma LoadedSavingsTab()
    ensures TableAsWritten([], [S0(), S1(), L2(), S3()], [0, 1, 2, 3], Savings) == [Some(S0()), Some(S1()), None]
  {
    CountLoaded();
    var base: Lines := [None, None, None];
    assert Resize([], 3) == base;
    PlacedLoaded(base);
  }

  /**
   * Deleting `S1` from that tab leaves `[S0, L2, S3]` labelled 0, 2 and 3; the
   * tab is cut to two lines and line 1 still shows the deleted `S1`.
   */
  lemma DeletedRowStaysShown()
    ensures var shown := TableAsWritten([Some(S0()), Some(S1()), None], [S0(), L2(), S3()], [0, 2, 3], Savings);
      && shown == [Some(S0()), Some(S1())]
      && S1() !in [S0(), L2(), S3()]
  {
    CountAfterDelete();
    var base: Lines := [Some(S0()), Some(S1())];
    assert Resize([Some(S0()), Some(S1()), None], 2) == base;
    PlacedAfterDelete(base);
  }

  lemma PlacedAfterAddFirstTwo(base: Lines)
    requires |base| == 3
    ensures Placed(base, [S0(), L2()], [0, 1], Savings) == base[0 := Some(S0())]
  {
    PlacedLast(base, [], [], S0(), 0, Savings);
    assert [] + [S0()] == [S0()] && [] + [0] == [0];
    PlacedLast(base, [S0()], [0], L2(), 1, Savings);
    assert [S0()] + [L2()] == [S0(), L2()] && [0] + [1] == [0, 1];
  }

  lemma PlacedAfterAdd(base: Lines)
    requires |base| == 3
    ensures Placed(base, [S0(), L2(), S3(), S5()], [0, 1, 2, 3], Savings) == [Some(S0()), base[1], Some(S3())]
  {
    PlacedAfterAddFirstTwo(base);
    PlacedLast(base, [S0(), L2()], [0, 1], S3(), 2, Savings);
    assert [S0(), L2()] + [S3()] == [S0(), L2(), S3()] && [0, 1] + [2] == [0, 1, 2];
    PlacedLast(base, [S0(), L2(), S3()], [0, 1, 2], S5(), 3, Savings);
    assert [S0(), L2(), S3()] + [S5()] == [S0(), L2(), S3(), S5()] && [0, 1, 2] + [3] == [0, 1, 2, 3];
  }

  /**
   * Adding `S5` next renumbers the labels 0 to 3 (main.py:115); the tab grows
   * to three lines, `S3` goes to line 2, `S5` is dropped, and the deleted `S1`
   * is still shown on line 1.
   */
  lemma AddedRowBesideDeleted()
    ensures var shown := TableAsWritten([Some(S0()), Some(S1())], [S0(), L2(), S3(), S5()], [0, 1, 2, 3], Savings);
      && shown == [Some(S0()), Some(S1()), Some(S3())]
      && Some(S5()) !in shown
  {
    CountAfterAdd();
    var base: Lines := [Some(S0()), Some(S1()), None];
    assert Resize([Some(S0()), Some(S1())], 3) == base;
    PlacedAfterAdd(base);
  }
}
