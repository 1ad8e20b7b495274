# Finance Tracker record table

A Dafny model of the record table behind the Finance Tracker window
(`main.py`). The table is a sequence of rows `(Section, Name, Amount, Date)`.
The Section is one of four budget categories: Savings, Income Pending, Loans
and Payments Pending. The window's handlers change or read that table:

- `add_entry` checks the typed name and amount. It then appends one row dated
  with the date widget's day.
- `edit_entry` runs three dialogs, then checks the new amount and date. The
  first stored row equal to what the selected line shows gets the new Name,
  Amount and Date. Its Section is kept. The amount searched for is read back
  from the shown two-decimal text (see "## Findings").
- `delete_entry` removes every stored row equal to what the selected line
  shows (see "## Findings").
- `refresh_table` is meant to show the rows of one section, in table order.
  As written it places each row on the line numbered by its DataFrame label
  and keeps lines it does not overwrite (see "## Findings").
- `update_summary` writes one line per section with the section's total.
- `plot_charts` drops rows whose date does not read. It sums the rest per
  calendar month, in ascending month order.

Modules:

- `Results`: `Option` and `Result`.
- `Text`: Python's `str.strip()` and decimal digit strings.
- `Amounts`: `float()` of amount text, and `f"{x:.2f}"`.
- `Dates`: `YYYY-MM-DD` dates and calendar months.
- `Records`: rows, the section filter, section totals, and the pure add, edit
  and delete operations.
- `Monthly`: the month grouping behind the chart.
- `Tracker`: the `FinanceTracker` class. Its field `data` holds the table, and
  its methods are the handlers.
- `Findings`: the edit and delete lookup and `refresh_table`, modelled as written, next to inputs that show where
  they go wrong.

Whatever the widgets and dialogs hold is passed to the handlers as
parameters. That covers the input text, the date widget's day, the selected
row and the dialog answers. Whatever the widgets are given comes back as a
result: a tab's lines, the summary text and the chart's series.

Amounts are exact `real`s. A date is stored as its text. A date reads only
in the strict zero-padded form `YYYY-MM-DD`, and only for a valid Gregorian
date in years 1 to 9999 (`Dates.ParseDate`). The edit dialog's check and
the chart's date parsing both use this one definition.

## Model

| member | source | states |
|---|---|---|
| `Text.Strip` | main.py:105 | The stripped name is the typed text with only a leading and a trailing run of whitespace cut off. It is empty exactly when the text is all whitespace, and otherwise has no whitespace at either end. |
| `Text.StripIdempotent` | main.py:105 | Stripping a stripped name changes nothing. |
| `Amounts.ParseAmount` | main.py:107 | `float()` of the amount field, with `None` for the `ValueError`. Its contract is carried by `BlankIsNotAmount`, `ParseFormat2` and `ParseFormat2Exact`. |
| `Amounts.Format2` | main.py:195 | `f"{x:.2f}"`: the amount rounded half-to-even to hundredths, with a minus sign whenever the amount is negative. `ParseFormat2` and `ParseFormat2Exact` state what it promises. |
| `Amounts.BlankIsNotAmount` | main.py:106-110 | Blank amount text never reads as a number, so `add_entry` refuses it. |
| `Amounts.ParseFormat2` | main.py:195 | The two-decimal text shown for any amount reads back as a number within 0.005 of that amount. |
| `Amounts.ParseFormat2Exact` | main.py:195 | An amount that is a whole number of hundredths reads back exactly from its shown text. |
| `Amounts.ParseFormat2InCents` | main.py:174-175 | The text shown for any amount reads back as a whole number of hundredths. |
| `Dates.ParseDate` | main.py:148 | Text accepted as a date names a valid calendar date. |
| `Dates.FormatDate` | main.py:111 | `QDate.toString("yyyy-MM-dd")`: ten characters with dashes at positions 4 and 7. `ParseFormatDate` shows it reads back. |
| `Dates.ParseFormatDate` | main.py:111 | The `yyyy-MM-dd` text written for the date widget's day reads back as that same day. |
| `Dates.FormatParseDate` | main.py:148 | Text accepted as a date is exactly that date's `YYYY-MM-DD` spelling. |
| `Dates.ParseDateCharacterised` | main.py:148 | Text reads as date `d` if and only if `d` is valid and the text is its spelling. |
| `Dates.EarlierTotal` | main.py:229 | Chronological order of months is a strict total order. |
| `Records.SectionRows` | main.py:191 | A tab's rows all have that section. A row is among them exactly when it is in the table with that section. |
| `Records.SectionRowsInOrder` | main.py:191 | A tab's rows sit at strictly increasing positions of the table. Those positions are exactly the ones holding that section. |
| `Records.SectionTotal` | main.py:210 | The sum of the amounts of one section's rows. `SectionTotalEmpty`, `SectionTotalsPartition`, `AddedRowTotals`, `EditTotals` and `DeleteTotals` state its properties. |
| `Records.SectionTotalEmpty` | main.py:209-211 | A section with no rows totals 0. |
| `Records.SectionTotalsPartition` | main.py:209-211 | The four section totals add up to the sum of all amounts. |
| `Records.NewEntry` | main.py:104-115 | An unreadable amount is refused first. Otherwise a blank name is refused. Otherwise the row holds the section, the stripped non-empty name, the parsed amount and the widget's date. |
| `Records.AddedRowShown` | main.py:113-117 | After an append, the row's tab shows exactly one more copy of it, at the end. Every other tab is unchanged. |
| `Records.AddedRowTotals` | main.py:113-116 | An append raises its section's total by the row's amount. Every other total is unchanged. |
| `Records.FirstIndexOf` | main.py:153-160 | No index is found exactly when no row equals the target. A found index holds the target, and no lower index does. |
| `Records.EditFirst` | main.py:160-163 | The length is kept. If no row matches, nothing changes. Otherwise only the first match becomes `(its section, new name, new amount, new date)`, and every other row is unchanged. |
| `Records.EditKeepsOtherSections` | main.py:160-163 | After an edit, every other section's tab shows the same rows as before. |
| `Records.EditTotals` | main.py:160-163 | An edit that finds its row swaps the old amount for the new one in that section's total. |
| `Records.RemoveAll` | main.py:178-185 | No matching row is left. Every other row keeps its count. The length drops by the number of matches. |
| `Records.RemoveAllInOrder` | main.py:178-185 | The rows left are exactly the non-matching rows, in their original relative order. |
| `Records.DeleteUndoesAdd` | main.py:178-185 | Deleting a just-added row that had no duplicate restores the table. |
| `Records.RemoveAbsent` | main.py:178-185 | Deleting a row the table does not hold leaves the table unchanged. |
| `Records.DeleteTotals` | main.py:178-185 | A delete lowers the target's section total by its amount times the number of removed copies. Every other total is unchanged. |
| `Monthly.MonthOf` | main.py:227-228 | The month a row is charted in. A month found lies in years 1677 to 2262 and has a month number from 1 to 12. |
| `Monthly.MonthOfWrittenDate` | main.py:227-228 | A row dated through the date widget is charted in its date's month exactly when a nanosecond timestamp can hold that date. Otherwise the row is dropped. |
| `Monthly.MonthOfUnreadable` | main.py:227-228 | A row whose date text is not the `YYYY-MM-DD` spelling of a valid date is dropped from the chart. |
| `Monthly.AddToMonth` | main.py:229 | Adding an amount to a month keeps the series ascending and lists that month. Only that month's total grows, by exactly the amount. |
| `Monthly.MonthlyTotals` | main.py:226-229 | The monthly series is in strictly ascending month order. |
| `Monthly.MonthlyTotalsCorrect` | main.py:226-229 | The months listed are exactly those of readable dates. Each month's total is the sum of the amounts of the rows dated in it. Rows whose dates do not read count nowhere. |
| `Monthly.MonthlyBars` | main.py:226-229 | Each bar, read by position, is a month some row falls in, and it carries that month's total. |
| `Tracker.Display` | main.py:194-196 | The three cells of a row: Name, the amount with two decimals, and Date. `DisplayReadsBack` states what the amount cell promises. |
| `Tracker.DisplayReadsBack` | main.py:194-196 | A row's shown amount reads back as a number within 0.005 of the stored amount. |
| `Tracker.SummaryText` | main.py:209-211 | The summary lines of a list of sections. `SummaryLines` and `SummaryLineReadsBack` state its contents. |
| `Tracker.SummaryLines` | main.py:207-212 | The summary is one line per section, in tab order. |
| `Tracker.SummaryLineReadsBack` | main.py:211 | Each summary line is the section's name and a two-decimal number within 0.005 of its total. |
| `Tracker.FinanceTracker.constructor` | main.py:50-54 | The table starts as the saved rows, or empty when there are none. |
| `Tracker.FinanceTracker.AddEntry` | main.py:104-119 | On success exactly the new row is appended and earlier rows are untouched. On a refused amount or name the table is unchanged. |
| `Tracker.FinanceTracker.EditEntry` | main.py:121-165 | No selection, a cancelled or empty answer, an unreadable amount or date, and no matching row each leave the table unchanged, and each is reported apart. Otherwise the table becomes `EditFirst` at the first match. |
| `Tracker.FinanceTracker.DeleteEntry` | main.py:167-187 | With no selection nothing changes. Otherwise every row equal to the selected one is removed. |
| `Tracker.FinanceTracker.RefreshTable` | main.py:189-196 | Line `k` of the tab shows the cells of the `k`-th row of that section. The tab has as many lines as the section has rows. |
| `Tracker.FinanceTracker.UpdateSummary` | main.py:207-212 | The loop builds the summary text, one line per section in tab order. |
| `Tracker.FinanceTracker.PlotCharts` | main.py:223-229 | An empty table draws nothing. Otherwise the chart is the monthly series. |
| `Tracker.TableShowsSection` | main.py:189-196 | Every row of the section shows in its tab, and every line of the tab comes from a row of that section. |
| `Tracker.DeleteRemovesSelected` | main.py:167-185 | Deleting a selected row removes it, so the table shrinks. |
| `Tracker.EditFindsSelected` | main.py:153-160 | Editing a selected row always finds a matching row. |
| `Findings.ShownTarget` | main.py:174-175 | As written, the row that edit and delete search for, with the amount read back from the shown text. `ShownRentAmount` and `DeleteAsWrittenOnCents` state what it gives. |
| `Findings.DeleteAsWritten` | main.py:178-185 | As written, `delete_entry` on the cells of the selected line. `DeleteAsWrittenMissesRow` and `DeleteAsWrittenOnCents` state its behaviour. |
| `Findings.EditAsWritten` | main.py:153-163 | As written, `edit_entry` on the cells of the selected line. `EditAsWrittenMissesRow` states its behaviour. |
| `Findings.ShownRentAmount` | main.py:174-175 | An amount of 1.234 is searched for as 1.23 once it has gone through the display. |
| `Findings.DeleteAsWrittenMissesRow` | main.py:174-185 | As written, deleting the selected 1.234 row leaves the table unchanged. |
| `Findings.EditAsWrittenMissesRow` | main.py:128-163 | As written, editing the selected 1.234 row leaves the table unchanged. |
| `Findings.DeleteAsWrittenOnCents` | main.py:174-185 | As written, delete matches the intended delete whenever the amount is a whole number of hundredths. |
| `Findings.DeleteAsWrittenMissesOffCents` | main.py:174-185 | As written, a selected row whose amount is not a whole number of hundredths stays in the table, so the delete differs from the intended one. Together with `DeleteAsWrittenOnCents`, delete works exactly for amounts in whole hundredths. |
| `Findings.DeleteAsWrittenAbsent` | main.py:178-185 | As written, when the row searched for is not in the table, delete changes nothing. |
| `Findings.Resize` | main.py:192 | `setRowCount(n)` gives `n` lines. Lines that were there keep what they showed, and new lines are blank. |
| `Findings.Placed` | main.py:193-196 | As written, each row of the section is written onto the line numbered by its DataFrame label, in table order. A label past the line count is ignored. The number of lines is kept. |
| `Findings.TableAsWritten` | main.py:191-196 | As written, the tab has as many lines as the section has rows. |
| `Findings.SectionCountIsLength` | main.py:191-192 | The count given to `setRowCount` is the number of rows the section filter yields. |
| `Findings.RefreshTableAsWritten` | main.py:189-196 | As written, starting from the lines the tab showed before: the lines are resized, then each row of the section goes on the line numbered by its label. |
| `Findings.TableAsWrittenLeavesGap` | main.py:192-196 | As written, a Loans row followed by a Savings row leaves a fresh Savings tab with one blank line, and the saving is never shown. |
| `Findings.LoadedSavingsTab` | main.py:192-196 | As written, a fresh Savings tab for `[S0, S1, L2, S3]` shows `S0`, `S1` and a blank line. `S3` is dropped. |
| `Findings.DeletedRowStaysShown` | main.py:178-196 | As written, deleting `S1` from that tab leaves labels 0, 2 and 3. The tab shrinks to two lines, and line 1 still shows the deleted `S1`. |
| `Findings.AddedRowBesideDeleted` | main.py:113-117 | As written, adding `S5` next renumbers the labels, and the tab shows `S0`, the deleted `S1` and `S3`. `S5` is not shown. |

## Left out

- Qt widget wiring is left out: windows, tabs, input fields, message boxes and dialogs (main.py:32-48, 60-102, 198-205, 214-221). Their contents are parameters and results.
- In the source, every tab's input fields overwrite the same attributes (main.py:66-68). So `add_entry` reads the fields of the last tab created, whichever tab's Add was pressed. The model passes in the typed text directly.
- A blank tab line that is selected makes `table.item(row, 0)` return nothing, and the source then fails (main.py:128, 174). The model's selection is always a stored row's values.
- File persistence is left out: `load_data`/`save_data` are pandas `read_csv`/`to_csv` (main.py:50-57). The constructor takes the loaded rows as a parameter. Writing the file after each change is not modelled.
- Chart drawing with matplotlib is left out (main.py:230-234). `PlotCharts` returns the series the bars are drawn from. The chart is drawn once, when the window is built.
- Floating point is left out. Amounts are exact reals, so sums have no rounding error, and values too large for a double do not become infinity.
- `Amounts.Format2` rounds the exact amount half-to-even. Python rounds the binary double nearest the amount, so an amount that is a tie in decimal but not in binary can round differently there. For 2.675 the model gives `"2.68"`, while Python's double 2.67499… gives `"2.67"`.
- `Amounts.ParseAmount` is narrower than `float()`. It does not accept `inf`, `nan`, `infinity`, underscores between digits, or non-ASCII digits.
- `Dates.ParseDate` is stricter than `datetime.strptime("%Y-%m-%d")`, which also takes single-digit months and days. It is also stricter in spelling than `pd.to_datetime(errors="coerce")`, which takes many other date spellings. One strict `YYYY-MM-DD` check stands for both.
- The chart's range limit is modelled. `pd.to_datetime` holds dates as nanosecond timestamps, so it turns a date outside 1677-09-22 to 2262-04-11 into a missing value. `Monthly.MonthOf` drops such rows as the chart does, even though the date widget and `strptime` accept them.
- The date widget's own range is not modelled. Any valid date in years 1 to 9999 is allowed.
- pandas dtype details are left out, such as the Amount column of an empty table being of object type.
- The class does not track DataFrame labels. `Findings.RefreshTableAsWritten` takes them as a parameter: 0 to n-1 after a load or an add (main.py:115), the kept labels after a delete (main.py:178), and unchanged by an edit.

## Findings

| source | as written | input that shows it | evidently intended | confidence | as-written member | corrected member |
|---|---|---|---|---|---|---|
| main.py:174-175 | Edit and delete search for `float()` of the amount's two-decimal display text, not the stored amount. | A Savings row `("Rent", 1.234, "2024-01-05")`, selected and then deleted or edited. More generally, any selected row whose amount is not a whole number of hundredths survives delete (`Findings.DeleteAsWrittenMissesOffCents`). | The selected row is deleted or edited. | not executed; high | `Findings.DeleteAsWrittenMissesRow` | `Tracker.DeleteRemovesSelected` |
| main.py:193-196 | Each row is written to the tab line numbered by its DataFrame label, not its position within the section. Lines nothing is written to keep what they showed before. | A table holding a Loans row then a Savings row; the Savings tab. Also: `[S0, S1, L2, S3]`, then delete `S1`, where the tab still shows `S1` (`Findings.DeletedRowStaysShown`). | The Savings tab shows exactly its rows, in table order. | not executed; high | `Findings.TableAsWrittenLeavesGap` | `Tracker.FinanceTracker.RefreshTable` |
