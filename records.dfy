/**
 * The record table behind the window: rows of (Section, Name, Amount, Date)
 * held in insertion order, and the pure operations on it that the handlers of
 * main.py are built from.
 */
module Records {
  import opened Results
  import opened Text
  import opened Amounts
  import opened Dates

  /** The four budget categories, one tab each (main.py:28). */
  datatype Section = Savings | IncomePending | Loans | PaymentsPending

  /** The categories in tab order; the summary lists them in this order. */
  const Sections: seq<Section> := [Savings, IncomePending, Loans, PaymentsPending]

  /** The column names of the table, in the order of the fields of `Row` (main.py:27). */
  const Columns: seq<string> := ["Section", "Name", "Amount", "Date"]

  function SectionName(s: Section): string {
    match s
    case Savings => "Savings"
    case IncomePending => "Income Pending"
    case Loans => "Loans"
    case PaymentsPending => "Payments Pending"
  }

  /** One line item. The date is kept as the text that was stored. */
  datatype Row = Row(section: Section, name: string, amount: real, date: string)

  /** The elements of `s` that `keep` accepts, in their original order. */
  function Filter<T>(s: seq<T>, keep: T -> bool): (r: seq<T>)
    ensures |r| <= |s|
    ensures forall i :: 0 <= i < |r| ==> keep(r[i])
  {
    if s == [] then [] else (if keep(s[0]) then [s[0]] else []) + Filter(s[1..], keep)
  }

  /** `Filter` keeps every copy of an accepted value and no copy of any other. */
  lemma {:induction false} FilterCount<T>(s: seq<T>, keep: T -> bool, x: T)
    ensures multiset(Filter(s, keep))[x] == if keep(x) then multiset(s)[x] else 0
  {
    if s != [] {
      assert s == [s[0]] + s[1..];
      FilterCount(s[1..], keep, x);
    }
  }

  lemma {:induction false} FilterAppend<T>(a: seq<T>, b: seq<T>, keep: T -> bool)
    ensures Filter(a + b, keep) == Filter(a, keep) + Filter(b, keep)
  {
    if a == [] {
      assert a + b == b;
    } else {
      var head := if keep(a[0]) then [a[0]] else [];
      assert (a + b)[0] == a[0];
      assert (a + b)[1..] == a[1..] + b;
      calc {
        Filter(a + b, keep);
        head + Filter(a[1..] + b, keep);
        { FilterAppend(a[1..], b, keep); }
        head + (Filter(a[1..], keep) + Filter(b, keep));
        Filter(a, keep) + Filter(b, keep);
      }
    }
  }

  /**
   * The positions of the kept elements, in increasing order: `Filter` keeps
   * every accepted element and nothing else, and never reorders.
   */
  lemma {:induction false} FilterPositions<T>(s: seq<T>, keep: T -> bool) returns (pos: seq<nat>)
    ensures |pos| == |Filter(s, keep)|
    ensures forall k :: 0 <= k < |pos| ==> pos[k] < |s| && Filter(s, keep)[k] == s[pos[k]]
    ensures forall k, l :: 0 <= k < l < |pos| ==> pos[k] < pos[l]
    ensures forall i :: 0 <= i < |s| ==> (keep(s[i]) <==> i in pos)
  {
    if s == [] {
      pos := [];
    } else {
      var rest := FilterPositions(s[1..], keep);
      var shifted := seq(|rest|, k requires 0 <= k < |rest| => rest[k] + 1);
      pos := if keep(s[0]) then [0] + shifted else shifted;
      PositionsStepAt(s, keep, rest, shifted, pos);
      PositionsStepOrdered(s, keep, rest, shifted, pos);
      PositionsStepComplete(s, keep, rest, shifted, pos);
    }
  }

  lemma PositionsStepAt<T>(s: seq<T>, keep: T -> bool, rest: seq<nat>, shifted: seq<nat>, pos: seq<nat>)
    requires s != []
    requires |rest| == |Filter(s[1..], keep)|
    requires forall k :: 0 <= k < |rest| ==> rest[k] < |s[1..]| && Filter(s[1..], keep)[k] == s[1..][rest[k]]
    requires |shifted| == |rest| && forall k :: 0 <= k < |rest| ==> shifted[k] == rest[k] + 1
    requires pos == if keep(s[0]) then [0] + shifted else shifted
    ensures |pos| == |Filter(s, keep)|
    ensures forall k :: 0 <= k < |pos| ==> pos[k] < |s| && Filter(s, keep)[k] == s[pos[k]]
  {
    var f1 := Filter(s[1..], keep);
    if keep(s[0]) {
      var f := Filter(s, keep);
      assert f == [s[0]] + f1;
      forall k | 0 < k < |pos| ensures pos[k] < |s| && f[k] == s[pos[k]] {
        PositionShifted(s, f1, rest, k - 1);
        assert pos[k] == rest[k - 1] + 1 && f[k] == f1[k - 1];
      }
    } else {
      assert Filter(s, keep) == f1;
      forall k | 0 <= k < |pos| ensures pos[k] < |s| && f1[k] == s[pos[k]] {
        PositionShifted(s, f1, rest, k);
      }
    }
  }

  lemma PositionShifted<T>(s: seq<T>, f1: seq<T>, rest: seq<nat>, j: nat)
    requires s != [] && j < |rest| && |rest| == |f1|
    requires rest[j] < |s[1..]| && f1[j] == s[1..][rest[j]]
    ensures rest[j] + 1 < |s| && f1[j] == s[rest[j] + 1]
  {
  }

  lemma PositionsStepOrdered<T>(s: seq<T>, keep: T -> bool, rest: seq<nat>, shifted: seq<nat>, pos: seq<nat>)
    requires s != []
    requires forall k, l :: 0 <= k < l < |rest| ==> rest[k] < rest[l]
    requires |shifted| == |rest| && forall k :: 0 <= k < |rest| ==> shifted[k] == rest[k] + 1
    requires pos == if keep(s[0]) then [0] + shifted else shifted
    ensures forall k, l :: 0 <= k < l < |pos| ==> pos[k] < pos[l]
  {
    forall k, l | 0 <= k < l < |pos| ensures pos[k] < pos[l] {
      var d := if keep(s[0]) then 1 else 0;
      assert pos[l] == rest[l - d] + 1;
      if k >= d {
        assert pos[k] == rest[k - d] + 1;
      }
    }
  }

  lemma PositionsStepComplete<T>(s: seq<T>, keep: T -> bool, rest: seq<nat>, shifted: seq<nat>, pos: seq<nat>)
    requires s != []
    requires forall i :: 0 <= i < |s[1..]| ==> (keep(s[1..][i]) <==> i in rest)
    requires |shifted| == |rest| && forall k :: 0 <= k < |rest| ==> shifted[k] == rest[k] + 1
    requires pos == if keep(s[0]) then [0] + shifted else shifted
    ensures forall i :: 0 <= i < |s| ==> (keep(s[i]) <==> i in pos)
  {
    forall i | 0 <= i < |s| ensures keep(s[i]) <==> i in pos {
      if i > 0 {
        assert s[i] == s[1..][i - 1];
        if i - 1 in rest {
          var k :| 0 <= k < |rest| && rest[k] == i - 1;
          assert shifted[k] == i;
        }
        if i in shifted {
          var k :| 0 <= k < |shifted| && shifted[k] == i;
          assert rest[k] == i - 1;
        }
      } else {
        assert 0 !in shifted;
      }
    }
  }

  /** The rows of one section, in table order: the tab's view (main.py:191). */
  function SectionRows(rows: seq<Row>, s: Section): (r: seq<Row>)
    ensures forall i :: 0 <= i < |r| ==> r[i].section == s
    ensures forall x :: x in r <==> x in rows && x.section == s
  {
    var r := Filter(rows, (x: Row) => x.section == s);
    assert forall x :: x in r <==> x in rows && x.section == s by {
      forall x ensures x in r <==> x in rows && x.section == s {
        FilterCount(rows, (x: Row) => x.section == s, x);
      }
    }
    r
  }

  /**
   * The tab's rows are the rows of the table with that section, each at an
   * increasing position of the table: nothing is dropped, added or reordered.
   */
  lemma SectionRowsInOrder(rows: seq<Row>, s: Section) returns (pos: seq<nat>)
    ensures |pos| == |SectionRows(rows, s)|
    ensures forall k :: 0 <= k < |pos| ==> pos[k] < |rows| && SectionRows(rows, s)[k] == rows[pos[k]]
    ensures forall k, l :: 0 <= k < l < |pos| ==> pos[k] < pos[l]
    ensures forall i :: 0 <= i < |rows| ==> (rows[i].section == s <==> i in pos)
  {
    pos := FilterPositions(rows, (x: Row) => x.section == s);
  }

  /** The sum of the amounts of `rows`. */
  function Sum(rows: seq<Row>): real {
    if rows == [] then 0.0 else rows[0].amount + Sum(rows[1..])
  }

  lemma {:induction false} SumAppend(a: seq<Row>, b: seq<Row>)
    ensures Sum(a + b) == Sum(a) + Sum(b)
  {
    if a == [] {
      assert a + b == b;
    } else {
      assert (a + b)[0] == a[0];
      assert (a + b)[1..] == a[1..] + b;
      SumAppend(a[1..], b);
    }
  }

  /** `.sum()` of the Amount column of one section's rows (main.py:210). */
  function SectionTotal(rows: seq<Row>, s: Section): real {
    Sum(SectionRows(rows, s))
  }

  /** A section without rows totals zero. */
  lemma {:induction false} SectionTotalEmpty(rows: seq<Row>, s: Section)
    requires forall i :: 0 <= i < |rows| ==> rows[i].section != s
    ensures SectionTotal(rows, s) == 0.0
  {
    if rows != [] {
      SectionTotalStep(rows, s);
      SectionTotalEmpty(rows[1..], s);
    }
  }

  lemma SumCons(r: Row, rest: seq<Row>)
    ensures Sum([r] + rest) == r.amount + Sum(rest)
  {
    assert ([r] + rest)[1..] == rest;
  }

  /** How the first row of the table contributes to a section's total. */
  lemma SectionTotalStep(rows: seq<Row>, s: Section)
    requires rows != []
    ensures SectionTotal(rows, s)
         == (if rows[0].section == s then rows[0].amount else 0.0) + SectionTotal(rows[1..], s)
  {
    var rest := SectionRows(rows[1..], s);
    if rows[0].section == s {
      assert SectionRows(rows, s) == [rows[0]] + rest;
      SumCons(rows[0], rest);
    } else {
      assert SectionRows(rows, s) == [] + rest;
      assert [] + rest == rest;
    }
  }

  /** The four section totals add up to the sum of the whole table. */
  lemma {:induction false} SectionTotalsPartition(rows: seq<Row>)
    ensures SectionTotal(rows, Savings) + SectionTotal(rows, IncomePending)
          + SectionTotal(rows, Loans) + SectionTotal(rows, PaymentsPending) == Sum(rows)
  {
    if rows != [] {
      SectionTotalsPartition(rows[1..]);
      SectionTotalStep(rows, Savings);
      SectionTotalStep(rows, IncomePending);
      SectionTotalStep(rows, Loans);
      SectionTotalStep(rows, PaymentsPending);
    }
  }

  /** ------------------------------------------------------------------
   *  Add (main.py:104-115).
   *  ------------------------------------------------------------------ */

  /** Why the add form was refused. */
  datatype AddError =
    | InvalidAmount  // "Amount must be a number." is shown
    | EmptyName      // nothing is shown and nothing is added

  /**
   * The row the add form produces from the text of its fields and the date of
   * its date widget, or why there is none. The amount is checked first, so a
   * bad amount is reported even when the name is blank.
   */
  function NewEntry(section: Section, nameText: string, amountText: string, date: Date): (r: Result<Row, AddError>)
    requires ValidDate(date)
    ensures r == Err(InvalidAmount) <==> ParseAmount(amountText).None?
    ensures r == Err(EmptyName) <==> ParseAmount(amountText).Some? && AllSpace(nameText)
    ensures r.Ok? ==> && r.value.section == section
                      && r.value.name == Strip(nameText) && r.value.name != []
                      && Some(r.value.amount) == ParseAmount(amountText)
                      && ParseDate(r.value.date) == Some(date)
  {
    var name := Strip(nameText);
    match ParseAmount(amountText)
    case None => Err(InvalidAmount)
    case Some(amount) =>
      ParseFormatDate(date);
      if name != [] then Ok(Row(section, name, amount, FormatDate(date))) else Err(EmptyName)
  }

  /** Adding to a section shows exactly one more row there, at the end, and no other tab changes. */
  lemma AddedRowShown(rows: seq<Row>, r: Row, s: Section)
    ensures SectionRows(rows + [r], s) == SectionRows(rows, s) + (if r.section == s then [r] else [])
    ensures multiset(SectionRows(rows + [r], s))[r] == multiset(SectionRows(rows, s))[r] + (if r.section == s then 1 else 0)
  {
    FilterAppend(rows, [r], (x: Row) => x.section == s);
  }

  /** Adding a row raises its section's total by its amount and leaves the others alone. */
  lemma AddedRowTotals(rows: seq<Row>, r: Row, s: Section)
    ensures SectionTotal(rows + [r], s) == SectionTotal(rows, s) + (if r.section == s then r.amount else 0.0)
  {
    AddedRowShown(rows, r, s);
    SumAppend(SectionRows(rows, s), if r.section == s then [r] else []);
  }

  /** ------------------------------------------------------------------
   *  Edit (main.py:153-163): the first row equal to the selected one.
   *  ------------------------------------------------------------------ */

  /** The lowest position holding `target`, or `None` when no row equals it. */
  function FirstIndexOf(rows: seq<Row>, target: Row): (r: Option<nat>)
    ensures r.None? <==> target !in rows
    ensures r.Some? ==> r.value < |rows| && rows[r.value] == target
    ensures r.Some? ==> forall j :: 0 <= j < r.value ==> rows[j] != target
  {
    if rows == [] then None
    else if rows[0] == target then Some(0)
    else
      match FirstIndexOf(rows[1..], target)
      case None => None
      case Some(i) => Some(i + 1)
  }

  /**
   * Overwrites the Name, Amount and Date of the first row equal to `target`,
   * keeping its Section; every other row is untouched.
   */
  function EditFirst(rows: seq<Row>, target: Row, name: string, amount: real, date: string): (r: seq<Row>)
    ensures |r| == |rows|
    ensures target !in rows ==> r == rows
    ensures target in rows ==>
      var i := FirstIndexOf(rows, target).value;
      && r[i] == Row(target.section, name, amount, date)
      && forall j :: 0 <= j < |rows| && j != i ==> r[j] == rows[j]
  {
    if rows == [] then []
    else if rows[0] == target then [Row(rows[0].section, name, amount, date)] + rows[1..]
    else [rows[0]] + EditFirst(rows[1..], target, name, amount, date)
  }

  /** An edit keeps the row in its section, so every other tab shows what it showed before. */
  lemma {:induction false} EditKeepsOtherSections(rows: seq<Row>, target: Row, name: string, amount: real, date: string, s: Section)
    requires s != target.section
    ensures SectionRows(EditFirst(rows, target, name, amount, date), s) == SectionRows(rows, s)
  {
    if rows != [] {
      var r := EditFirst(rows, target, name, amount, date);
      if rows[0] == target {
        assert r[1..] == rows[1..];
      } else {
        assert r[1..] == EditFirst(rows[1..], target, name, amount, date);
        EditKeepsOtherSections(rows[1..], target, name, amount, date, s);
      }
    }
  }

  /** An edit that finds its row moves that section's total from the old amount to the new one. */
  lemma {:induction false} EditTotals(rows: seq<Row>, target: Row, name: string, amount: real, date: string)
    requires target in rows
    ensures SectionTotal(EditFirst(rows, target, name, amount, date), target.section)
         == SectionTotal(rows, target.section) - target.amount + amount
  {
    var r := EditFirst(rows, target, name, amount, date);
    SectionTotalStep(rows, target.section);
    SectionTotalStep(r, target.section);
    if rows[0] == target {
      assert r[1..] == rows[1..];
    } else {
      assert r[1..] == EditFirst(rows[1..], target, name, amount, date);
      EditTotals(rows[1..], target, name, amount, date);
    }
  }

  /** ------------------------------------------------------------------
   *  Delete (main.py:178-185): every row equal to the selected one.
   *  ------------------------------------------------------------------ */

  /** `rows` without any row equal to `target`, the others kept in order. */
  function RemoveAll(rows: seq<Row>, target: Row): (r: seq<Row>)
    ensures target !in r
    ensures multiset(r) == multiset(rows)[target := 0]
    ensures |r| == |rows| - multiset(rows)[target]
  {
    var keep := (x: Row) => x != target;
    var r := Filter(rows, keep);
    forall x ensures multiset(r)[x] == multiset(rows)[target := 0][x] {
      FilterCount(rows, keep, x);
    }
    assert multiset(r) == multiset(rows)[target := 0];
    assert |multiset(rows)| == |multiset(rows)[target := 0]| + multiset(rows)[target] by {
      MultisetDropAll(multiset(rows), target);
    }
    r
  }

  /**
   * The rows left after a delete are exactly the rows different from
   * `target`, each at an increasing position of the old table.
   */
  lemma RemoveAllInOrder(rows: seq<Row>, target: Row) returns (pos: seq<nat>)
    ensures |pos| == |RemoveAll(rows, target)|
    ensures forall k :: 0 <= k < |pos| ==> pos[k] < |rows| && RemoveAll(rows, target)[k] == rows[pos[k]]
    ensures forall k, l :: 0 <= k < l < |pos| ==> pos[k] < pos[l]
    ensures forall i :: 0 <= i < |rows| ==> (rows[i] != target <==> i in pos)
  {
    pos := FilterPositions(rows, (x: Row) => x != target);
  }

  lemma MultisetDropAll<T>(m: multiset<T>, x: T)
    ensures |m| == |m[x := 0]| + m[x]
  {
    var rest := m[x := 0];
    var own := multiset{}[x := m[x]];
    assert m == rest + own;
  }

  /** Deleting a row that was just added returns the table to what it was,
      provided no equal row was there before. */
  lemma DeleteUndoesAdd(rows: seq<Row>, r: Row)
    requires r !in rows
    ensures RemoveAll(rows + [r], r) == rows
  {
    var keep := (x: Row) => x != r;
    FilterAppend(rows, [r], keep);
    FilterKeepsAll(rows, keep);
  }

  /** Deleting a row the table does not hold leaves the table as it was. */
  lemma RemoveAbsent(rows: seq<Row>, target: Row)
    requires target !in rows
    ensures RemoveAll(rows, target) == rows
  {
    FilterKeepsAll(rows, (x: Row) => x != target);
  }

  lemma {:induction false} FilterKeepsAll<T(!new)>(s: seq<T>, keep: T -> bool)
    requires forall i :: 0 <= i < |s| ==> keep(s[i])
    ensures Filter(s, keep) == s
  {
    if s != [] {
      FilterKeepsAll(s[1..], keep);
    }
  }

  /** Deleting lowers the total of the row's section by its amount times the number of
      removed copies, and leaves the other sections' totals alone. */
  lemma DeleteTotals(rows: seq<Row>, target: Row, s: Section)
    ensures SectionTotal(RemoveAll(rows, target), s)
         == SectionTotal(rows, s) - (if s == target.section then multiset(rows)[target] as real * target.amount else 0.0)
  {
    DeleteTotalsByCopies(rows, target, s);
    CopiesIsProduct(multiset(rows)[target], target.amount);
  }

  lemma {:induction false} DeleteTotalsByCopies(rows: seq<Row>, target: Row, s: Section)
    ensures SectionTotal(RemoveAll(rows, target), s) == SectionTotal(rows, s) - RemovedTotal(rows, target, s)
  {
    if rows != [] {
      DeleteTotalsByCopies(rows[1..], target, s);
      RemainingTotalStep(rows, target, s);
      SectionTotalStep(rows, s);
      RemovedTotalStep(rows, target, s);
    }
  }

  /** `n` copies of the amount `a` added up. */
  function Copies(n: nat, a: real): real {
    if n == 0 then 0.0 else a + Copies(n - 1, a)
  }

  lemma {:induction false} CopiesIsProduct(n: nat, a: real)
    ensures Copies(n, a) == n as real * a
  {
    if n > 0 {
      CopiesIsProduct(n - 1, a);
    }
  }

  /** What deleting every copy of `target` takes away from the total of section `s`. */
  function RemovedTotal(rows: seq<Row>, target: Row, s: Section): real {
    if s == target.section then Copies(multiset(rows)[target], target.amount) else 0.0
  }

  /** How the first row contributes to a section's total once `target` is deleted. */
  lemma RemainingTotalStep(rows: seq<Row>, target: Row, s: Section)
    requires rows != []
    ensures SectionTotal(RemoveAll(rows, target), s)
         == (if rows[0] == target then 0.0 else if rows[0].section == s then rows[0].amount else 0.0)
          + SectionTotal(RemoveAll(rows[1..], target), s)
  {
    RemoveAllStep(rows, target);
    var tail := RemoveAll(rows[1..], target);
    if rows[0] == target {
      assert [] + tail == tail;
    } else {
      var kept := [rows[0]] + tail;
      SectionTotalStep(kept, s);
      assert kept[0] == rows[0] && kept[1..] == tail;
    }
  }

  lemma RemovedTotalStep(rows: seq<Row>, target: Row, s: Section)
    requires rows != []
    ensures RemovedTotal(rows, target, s)
         == (if rows[0] == target && s == target.section then target.amount else 0.0)
          + RemovedTotal(rows[1..], target, s)
  {
    CountStep(rows, target);
  }

  lemma RemoveAllStep(rows: seq<Row>, target: Row)
    requires rows != []
    ensures RemoveAll(rows, target) == (if rows[0] == target then [] else [rows[0]]) + RemoveAll(rows[1..], target)
  {
  }

  lemma CountStep(rows: seq<Row>, target: Row)
    requires rows != []
    ensures multiset(rows)[target] == multiset(rows[1..])[target] + (if rows[0] == target then 1 else 0)
  {
    assert rows == [rows[0]] + rows[1..];
  }
}
