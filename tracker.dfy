/**
 * The `FinanceTracker` window (main.py:31-234) reduced to its state, the record
 * table `data`, and the handlers that read and change it. What the widgets
 * hold (the text of the input fields, the date widget, the selected row, the
 * answers typed into the edit dialogs) is passed in; what the widgets are
 * given (the rows of a tab, the summary text, the chart's series) is returned.
 */
module Tracker {
  import opened Results
  import opened Text
  import opened Amounts
  import opened Dates
  import opened Records
  import opened Monthly

  /** The three cells a tab shows for a row: Name, Amount with two decimals, Date. */
  datatype Cells = Cells(name: string, amount: string, date: string)

  /** How a row is shown in its tab (main.py:194-196). */
  function Display(r: Row): Cells {
    Cells(r.name, Format2(r.amount), r.date)
  }

  /** A shown amount reads back as a number within half a hundredth of the stored amount. */
  lemma DisplayReadsBack(r: Row)
    ensures ParseAmount(Display(r).amount).Some?
    ensures r.amount - 0.005 <= ParseAmount(Display(r).amount).value <= r.amount + 0.005
  {
    ParseFormat2(r.amount);
  }

  /** The row a user has selected in a tab: its stored Name, Amount and Date. */
  datatype Selection = Selection(name: string, amount: real, date: string)

  /** The record a selection in the tab of `section` stands for. */
  function Target(section: Section, sel: Selection): Row {
    Row(section, sel.name, sel.amount, sel.date)
  }

  /** A dialog answer that lets the edit go on: confirmed and not empty (main.py:133, 138, 143). */
  predicate Given(answer: Option<string>) {
    answer.Some? && answer.value != []
  }

  /** How an edit ended. */
  datatype EditOutcome =
    | NoSelection       // "Select a row to edit." is shown
    | Cancelled         // a dialog was cancelled or left empty
    | InvalidData       // "Enter valid amount and date." is shown
    | NotFound          // no stored row matches the selection
    | Edited(index: nat)

  datatype DeleteOutcome = NothingSelected | Deleted

  /** One line of the summary: the section's name and its total with two decimals (main.py:211). */
  function SummaryLine(s: Section, total: real): string {
    SectionName(s) + ": " + Format2(total) + "\n"
  }

  /** The summary lines of the sections `secs`, in that order. */
  function SummaryText(rows: seq<Row>, secs: seq<Section>): string {
    if secs == [] then ""
    else SummaryText(rows, secs[..|secs| - 1]) + SummaryLine(secs[|secs| - 1], SectionTotal(rows, secs[|secs| - 1]))
  }

  /** The summary is one line per section, in tab order. */
  lemma SummaryLines(rows: seq<Row>)
    ensures SummaryText(rows, Sections)
         == SummaryLine(Savings, SectionTotal(rows, Savings))
          + SummaryLine(IncomePending, SectionTotal(rows, IncomePending))
          + SummaryLine(Loans, SectionTotal(rows, Loans))
          + SummaryLine(PaymentsPending, SectionTotal(rows, PaymentsPending))
  {
    var s3 := [Savings, IncomePending, Loans];
    var s2 := [Savings, IncomePending];
    var s1 := [Savings];
    assert Sections[..3] == s3 && s3[..2] == s2 && s2[..1] == s1 && s1[..0] == [];
    assert SummaryText(rows, s1) == SummaryLine(Savings, SectionTotal(rows, Savings));
    assert SummaryText(rows, s2) == SummaryText(rows, s1) + SummaryLine(IncomePending, SectionTotal(rows, IncomePending));
    assert SummaryText(rows, s3) == SummaryText(rows, s2) + SummaryLine(Loans, SectionTotal(rows, Loans));
  }

  /** Each summary line names its section and a number within half a hundredth of the section's total. */
  lemma SummaryLineReadsBack(rows: seq<Row>, s: Section)
    ensures var t := Format2(SectionTotal(rows, s));
      && SummaryLine(s, SectionTotal(rows, s)) == SectionName(s) + ": " + t + "\n"
      && ParseAmount(t).Some?
      && SectionTotal(rows, s) - 0.005 <= ParseAmount(t).value <= SectionTotal(rows, s) + 0.005
  {
    ParseFormat2(SectionTotal(rows, s));
  }

  class FinanceTracker {
    /** The record table, in insertion order. */
    var data: seq<Row>

    /**
     * `load_data` (main.py:50-54): the rows of the saved file, or no rows when
     * there is no file or it is empty (`None`).
     */
    constructor(stored: Option<seq<Row>>)
      ensures data == (if stored.Some? then stored.value else [])
    {
      data := if stored.Some? then stored.value else [];
    }

    /**
     * `add_entry` (main.py:104-119): the typed name and amount and the date of
     * the date widget become a new last row, unless the amount does not read
     * or the name is blank.
     */
    method AddEntry(section: Section, nameText: string, amountText: string, date: Date) returns (result: Result<Row, AddError>)
      requires ValidDate(date)
      modifies this
      ensures result == NewEntry(section, nameText, amountText, date)
      ensures result.Ok? ==> data == old(data) + [result.value]
      ensures result.Err? ==> data == old(data)
    {
      result := NewEntry(section, nameText, amountText, date);
      if result.Ok? {
        data := data + [result.value];
      }
    }

    /**
     * `edit_entry` (main.py:121-165): with a row selected, the three dialogs
     * are answered in turn; a cancelled or empty answer ends the edit, then
     * the new amount and date are checked, and the first stored row equal to
     * the selection gets the new Name, Amount and Date.
     */
    method EditEntry(section: Section, selected: Option<Selection>,
                     newName: Option<string>, newAmount: Option<string>, newDate: Option<string>)
      returns (outcome: EditOutcome)
      modifies this
      ensures selected.None? <==> outcome == NoSelection
      ensures outcome == Cancelled <==>
        selected.Some? && !(Given(newName) && Given(newAmount) && Given(newDate))
      ensures outcome == InvalidData <==>
        && selected.Some? && Given(newName) && Given(newAmount) && Given(newDate)
        && (ParseAmount(newAmount.value).None? || ParseDate(newDate.value).None?)
      ensures outcome == NotFound <==>
        && selected.Some? && Given(newName) && Given(newAmount) && Given(newDate)
        && ParseAmount(newAmount.value).Some? && ParseDate(newDate.value).Some?
        && Target(section, selected.value) !in old(data)
      ensures outcome.Edited? ==>
        && selected.Some? && Given(newName) && Given(newAmount) && Given(newDate)
        && ParseAmount(newAmount.value).Some? && ParseDate(newDate.value).Some?
        && FirstIndexOf(old(data), Target(section, selected.value)) == Some(outcome.index)
        && data == EditFirst(old(data), Target(section, selected.value),
                             newName.value, ParseAmount(newAmount.value).value, newDate.value)
      ensures !outcome.Edited? ==> data == old(data)
    {
      if selected.None? {
        return NoSelection;
      }
      if !Given(newName) || !Given(newAmount) || !Given(newDate) {
        return Cancelled;
      }
      var amount := ParseAmount(newAmount.value);
      if amount.None? || ParseDate(newDate.value).None? {
        return InvalidData;
      }
      var target := Target(section, selected.value);
      var idx := FirstIndexOf(data, target);
      if idx.None? {
        return NotFound;
      }
      data := EditFirst(data, target, newName.value, amount.value, newDate.value);
      outcome := Edited(idx.value);
    }

    /**
     * `delete_entry` (main.py:167-187): with a row selected, every stored row
     * equal to the selection is removed.
     */
    method DeleteEntry(section: Section, selected: Option<Selection>) returns (outcome: DeleteOutcome)
      modifies this
      ensures selected.None? <==> outcome == NothingSelected
      ensures selected.None? ==> data == old(data)
      ensures selected.Some? ==> data == RemoveAll(old(data), Target(section, selected.value))
    {
      if selected.None? {
        return NothingSelected;
      }
      data := RemoveAll(data, Target(section, selected.value));
      outcome := Deleted;
    }

    /**
     * `refresh_table` (main.py:189-196): the tab of `section` gets one line per
     * row of that section, in table order.
     */
    method RefreshTable(section: Section) returns (table: array<Cells>)
      ensures fresh(table)
      ensures table.Length == |SectionRows(data, section)|
      ensures forall k :: 0 <= k < table.Length ==> table[k] == Display(SectionRows(data, section)[k])
    {
      var df := SectionRows(data, section);
      table := new Cells[|df|];
      var i := 0;
      while i < |df|
        invariant 0 <= i <= |df| && table.Length == |df|
        invariant forall k :: 0 <= k < i ==> table[k] == Display(df[k])
      {
        table[i] := Display(df[i]);
        i := i + 1;
      }
    }

    /** `update_summary` (main.py:207-212): the text given to the summary label. */
    method UpdateSummary() returns (text: string)
      ensures text == SummaryText(data, Sections)
    {
      text := "";
      var i := 0;
      while i < |Sections|
        invariant 0 <= i <= |Sections|
        invariant text == SummaryText(data, Sections[..i])
      {
        var sectionTotal := SectionTotal(data, Sections[i]);
        text := text + SummaryLine(Sections[i], sectionTotal);
        assert Sections[..i + 1][..i] == Sections[..i];
        i := i + 1;
      }
      assert Sections[..|Sections|] == Sections;
    }

    /**
     * `plot_charts` (main.py:223-234): nothing is drawn for an empty table;
     * otherwise the bars are the monthly totals.
     */
    method PlotCharts() returns (chart: Option<MonthTable>)
      ensures data == [] <==> chart.None?
      ensures chart.Some? ==> chart.value == MonthlyTotals(data)
    {
      if data == [] {
        return None;
      }
      chart := Some(MonthlyTotals(data));
    }
  }

  /** Every row of a section appears in its tab, and only those rows. */
  lemma TableShowsSection(rows: seq<Row>, section: Section, r: Row)
    ensures r in rows && r.section == section ==> Display(r) in DisplayAll(SectionRows(rows, section))
    ensures forall c :: c in DisplayAll(SectionRows(rows, section)) ==>
      exists x :: x in rows && x.section == section && Display(x) == c
  {
    var df := SectionRows(rows, section);
    if r in rows && r.section == section {
      var k :| 0 <= k < |df| && df[k] == r;
      assert DisplayAll(df)[k] == Display(r);
    }
    forall c | c in DisplayAll(df) ensures exists x :: x in rows && x.section == section && Display(x) == c {
      var k :| 0 <= k < |df| && DisplayAll(df)[k] == c;
      assert df[k] in df;
    }
  }

  /** The lines of a tab, read in order. */
  function DisplayAll(rows: seq<Row>): (cs: seq<Cells>)
    ensures |cs| == |rows|
    ensures forall k :: 0 <= k < |rows| ==> cs[k] == Display(rows[k])
  {
    if rows == [] then [] else [Display(rows[0])] + DisplayAll(rows[1..])
  }

  /** Deleting the row selected in a tab removes it, and every equal row, from the table. */
  lemma DeleteRemovesSelected(rows: seq<Row>, r: Row)
    requires r in rows
    ensures var left := RemoveAll(rows, Target(r.section, Selection(r.name, r.amount, r.date)));
      && r !in left
      && |left| < |rows|
  {
    assert Target(r.section, Selection(r.name, r.amount, r.date)) == r;
  }

  /** Editing the row selected in a tab always finds it. */
  lemma EditFindsSelected(rows: seq<Row>, r: Row)
    requires r in rows
    ensures FirstIndexOf(rows, Target(r.section, Selection(r.name, r.amount, r.date))).Some?
  {
    assert Target(r.section, Selection(r.name, r.amount, r.date)) == r;
  }
}
