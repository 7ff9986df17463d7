/** The production log both versions of the app keep in one worksheet: a row
    per production day, a cell per column, and the year-to-date sums and date
    lookups both versions compute over it. */
module Ledger {
  import opened Options
  import opened Calendar
  import opened Numeral

  /** How a date cell holds its date: as the text of strftime('%m/%d/%Y') or
      of isoformat(), or as a pandas Timestamp that a parse on load put in
      place of the text. */
  datatype DateStyle = MonthDayYear | IsoDate | Stamp

  /** One worksheet cell: a number, a text, a date (its characters are not
      modelled), or an empty cell (pandas NaN or NaT). */
  datatype Cell = Num(n: int) | Text(s: string) | DateText(day: Day, style: DateStyle) | Missing

  /** What pd.to_datetime makes of one ProductionDate cell: an empty cell
      (NaT), a date, or a text it cannot read. */
  datatype ParsedDate = Blank | Valid(day: Day) | Malformed

  /** The worksheet's columns. A column stands for its header text, Name(c);
      the issue columns are numbered and the weekday columns are indexed
      Monday = 0 to Sunday = 6. */
  datatype Column =
    | ProductionDate | NoOfJobs | NoOfTrials | DailyProductionTotal
    | WeeklyProductionTotal | MonthlyProductionTotal | YearlyProductionTotal | YtdJobsTotal
    | CleanMachineAm | CleanMachinePm | CleanMachineTotal | IssueResolutionTotal
    | ProductionIssues(k: nat) | DayOfWeek(weekday: WeekdayIndex) | TempDate

  /** The header text of a column. */
  function Name(c: Column): string {
    match c
    case ProductionDate => "ProductionDate"
    case NoOfJobs => "NoOfJobs"
    case NoOfTrials => "NoOfTrials"
    case DailyProductionTotal => "DailyProductionTotal"
    case WeeklyProductionTotal => "WeeklyProductionTotal"
    case MonthlyProductionTotal => "MonthlyProductionTotal"
    case YearlyProductionTotal => "YearlyProductionTotal"
    case YtdJobsTotal => "YTD_Jobs_Total"
    case CleanMachineAm => "CleanMachineAm"
    case CleanMachinePm => "CleanMachinePm"
    case CleanMachineTotal => "CleanMachineTotal"
    case IssueResolutionTotal => "IssueResolutionTotal"
    case ProductionIssues(k) => IssueColumn(k)
    case DayOfWeek(w) => WeekdayNames[w]
    case TempDate => "TempDate"
  }

  /** The weekday column strftime('%A') names for a day. */
  function WeekdayColumn(d: Day): (c: Column)
    ensures Name(c) == WeekdayName(d)
  {
    DayOfWeek(Weekday(d))
  }

  /** The twelve columns both versions list first. */
  const FixedColumns: seq<Column> := [
    ProductionDate, NoOfJobs, NoOfTrials, DailyProductionTotal,
    WeeklyProductionTotal, MonthlyProductionTotal, YearlyProductionTotal,
    YtdJobsTotal, CleanMachineAm, CleanMachinePm, CleanMachineTotal, IssueResolutionTotal]

  const NoIssue := "NoIssue"
  const IssueSlotCount := 10

  /** ProductionIssues_1 to ProductionIssues_10. */
  const IssueColumns: seq<Column> := [
    ProductionIssues(1), ProductionIssues(2), ProductionIssues(3), ProductionIssues(4), ProductionIssues(5),
    ProductionIssues(6), ProductionIssues(7), ProductionIssues(8), ProductionIssues(9), ProductionIssues(10)]

  /** Monday to Sunday. */
  const DayColumns: seq<Column> := [
    DayOfWeek(0), DayOfWeek(1), DayOfWeek(2), DayOfWeek(3), DayOfWeek(4), DayOfWeek(5), DayOfWeek(6)]

  /** The columns both versions share, in their order: ALL_COLUMNS of app.py. */
  const SharedColumns: seq<Column> := FixedColumns + IssueColumns + DayColumns

  /** The header texts of a list of columns. */
  function Names(cs: seq<Column>): seq<string> {
    seq(|cs|, i requires 0 <= i < |cs| => Name(cs[i]))
  }

  /** The column lists carry the sheet's header texts, in order. */
  lemma FixedColumnNames()
    ensures Names(FixedColumns) == [
      "ProductionDate", "NoOfJobs", "NoOfTrials", "DailyProductionTotal",
      "WeeklyProductionTotal", "MonthlyProductionTotal", "YearlyProductionTotal",
      "YTD_Jobs_Total", "CleanMachineAm", "CleanMachinePm", "CleanMachineTotal",
      "IssueResolutionTotal"]
  {
  }

  lemma IssueColumnListNames()
    ensures Names(IssueColumns) == [
      "ProductionIssues_1", "ProductionIssues_2", "ProductionIssues_3", "ProductionIssues_4", "ProductionIssues_5",
      "ProductionIssues_6", "ProductionIssues_7", "ProductionIssues_8", "ProductionIssues_9", "ProductionIssues_10"]
  {
    IssueColumnLiterals();
  }

  lemma DayColumnNames()
    ensures Names(DayColumns) == WeekdayNames
  {
  }

  lemma NamesConcat(a: seq<Column>, b: seq<Column>)
    ensures Names(a + b) == Names(a) + Names(b)
  {
  }

  /** Where each column sits in the shared list: the fixed columns first,
      issue column k at 11 + k, weekday w at 22 + w, 29 in all. */
  lemma SharedColumnsListed()
    ensures forall k | 1 <= k <= IssueSlotCount :: SharedColumns[11 + k] == ProductionIssues(k)
    ensures forall w: WeekdayIndex :: SharedColumns[22 + w] == DayOfWeek(w)
    ensures forall i | 0 <= i < |FixedColumns| :: SharedColumns[i] == FixedColumns[i]
    ensures |SharedColumns| == 29
  {
    FixedListed();
    IssuesListed();
    DaysListed();
  }

  lemma FixedListed()
    ensures |SharedColumns| == 29
    ensures forall i | 0 <= i < |FixedColumns| :: SharedColumns[i] == FixedColumns[i]
  {
  }

  lemma IssuesListed()
    ensures forall k | 1 <= k <= IssueSlotCount :: SharedColumns[11 + k] == ProductionIssues(k)
  {
    forall k | 1 <= k <= IssueSlotCount
      ensures SharedColumns[11 + k] == ProductionIssues(k)
    {
      assert SharedColumns[11 + k] == IssueColumns[k - 1];
    }
  }

  lemma DaysListed()
    ensures forall w: WeekdayIndex :: SharedColumns[22 + w] == DayOfWeek(w)
  {
    forall w: WeekdayIndex
      ensures SharedColumns[22 + w] == DayOfWeek(w)
    {
      assert SharedColumns[22 + w] == DayColumns[w];
    }
  }

  /** A row as the worksheet read returns it: the parse of its ProductionDate
      cell and its cells by column. A column missing from the map is an
      empty cell of that row. */
  datatype RawRow = RawRow(date: ParsedDate, cells: map<Column, Cell>)

  /** A loaded row: its parsed production date (None for NaT) and its cells. */
  datatype Row = Row(date: Option<Day>, cells: map<Column, Cell>)

  /** The cell of a column, an empty cell where the column has none. */
  function Lookup(cells: map<Column, Cell>, col: Column): Cell {
    if col in cells then cells[col] else Missing
  }

  function CellAt(r: Row, col: Column): Cell {
    Lookup(r.cells, col)
  }

  function RawCellAt(r: RawRow, col: Column): Cell {
    Lookup(r.cells, col)
  }
  /** pd.to_numeric(cell, errors='coerce'): numbers stay, integer text is
      read, everything else is NaN (None). */
  function NumericValue(c: Cell): (v: Option<int>)
    ensures c.Num? ==> v == Some(c.n)
    ensures c.Missing? || c.DateText? ==> v == None
  {
    match c
    case Num(n) => Some(n)
    case Text(s) => ParseDecimal(s)
    case _ => None
  }

  /** The value a cell adds to a pandas sum after to_numeric: NaN adds nothing. */
  function CellNumber(c: Cell): int {
    NumericValue(c).GetOr(0)
  }

  /** The year-to-date mask: a parsed date from 1 January of the target's
      year up to, not including, the target day. NaT never matches. */
  predicate InWindow(date: Option<Day>, target: Day) {
    date.Some? && YearStart(YearOf(target)) <= date.value < target
  }

  lemma InWindowIff(d: Day, target: Day)
    ensures InWindow(Some(d), target) <==> YearOf(d) == YearOf(target) && d < target
  {
    var y := YearOf(target);
    if YearStart(y) <= d < target {
      YearOfUnique(d, y);
    }
    if YearOf(d) == y && d < target {
      assert YearStart(YearOf(d)) <= d;
    }
  }

  /** What one row adds to the YTD sum of a column. */
  function WindowTerm(r: Row, col: Column, target: Day): int {
    if InWindow(r.date, target) then CellNumber(CellAt(r, col)) else 0
  }

  /** Sum of one column over the rows of the year-to-date window. */
  function WindowSum(rows: seq<Row>, col: Column, target: Day): int {
    if |rows| == 0 then 0
    else WindowSum(rows[..|rows| - 1], col, target) + WindowTerm(rows[|rows| - 1], col, target)
  }

  /** The last row's term comes on top of the sum over the rows before it. */
  lemma WindowSumLast(rows: seq<Row>, col: Column, target: Day)
    requires |rows| > 0
    ensures WindowSum(rows, col, target) == WindowSum(rows[..|rows| - 1], col, target) + WindowTerm(rows[|rows| - 1], col, target)
  {
  }

  lemma {:induction false} WindowSumConcat(a: seq<Row>, b: seq<Row>, col: Column, target: Day)
    ensures WindowSum(a + b, col, target) == WindowSum(a, col, target) + WindowSum(b, col, target)
    decreases |b|
  {
    if |b| == 0 {
      assert a + b == a;
    } else {
      var b' := b[..|b| - 1];
      assert (a + b)[..|a + b| - 1] == a + b';
      assert (a + b)[|a + b| - 1] == b[|b| - 1];
      WindowSumConcat(a, b', col, target);
    }
  }

  lemma WindowSumSingle(r: Row, col: Column, target: Day)
    ensures WindowSum([r], col, target) == WindowTerm(r, col, target)
  {
    assert [r][..0] == [];
  }

  /** Appending a row raises the YTD sum by the row's value when the row is
      in the window, and leaves it unchanged otherwise. */
  lemma WindowSumAppend(rows: seq<Row>, r: Row, col: Column, target: Day)
    ensures InWindow(r.date, target) ==> WindowSum(rows + [r], col, target) == WindowSum(rows, col, target) + CellNumber(CellAt(r, col))
    ensures !InWindow(r.date, target) ==> WindowSum(rows + [r], col, target) == WindowSum(rows, col, target)
  {
    WindowSumConcat(rows, [r], col, target);
    WindowSumSingle(r, col, target);
  }

  /** A row anywhere in the table contributes its own term, whatever its
      position. */
  lemma WindowSumInsert(a: seq<Row>, r: Row, b: seq<Row>, col: Column, target: Day)
    ensures WindowSum(a + [r] + b, col, target) == WindowSum(a + b, col, target) + WindowTerm(r, col, target)
  {
    WindowSumConcat(a + [r], b, col, target);
    WindowSumConcat(a, [r], col, target);
    WindowSumConcat(a, b, col, target);
    WindowSumSingle(r, col, target);
  }

  /** Rows outside the window, however many, add nothing. */
  lemma {:induction false} WindowSumOutside(rows: seq<Row>, col: Column, target: Day)
    requires forall i | 0 <= i < |rows| :: !InWindow(rows[i].date, target)
    ensures WindowSum(rows, col, target) == 0
  {
    if |rows| > 0 {
      WindowSumOutside(rows[..|rows| - 1], col, target);
    }
  }

  /** The order of the rows does not matter: tables holding the same rows,
      in any order, have the same YTD sums. */
  lemma {:induction false} WindowSumPermutation(a: seq<Row>, b: seq<Row>, col: Column, target: Day)
    requires multiset(a) == multiset(b)
    ensures WindowSum(a, col, target) == WindowSum(b, col, target)
    decreases |a|
  {
    if |a| == 0 {
      assert |multiset(b)| == 0;
    } else {
      var j := RemoveLast(a, b);
      WindowSumPermutation(a[..|a| - 1], b[..j] + b[j + 1..], col, target);
      assert b == b[..j] + [a[|a| - 1]] + b[j + 1..];
      WindowSumInsert(b[..j], a[|a| - 1], b[j + 1..], col, target);
    }
  }

  /** The last element of a also sits at some index j of b; taking it out of
      both leaves equal multisets. */
  lemma RemoveLast<T>(a: seq<T>, b: seq<T>) returns (j: nat)
    requires |a| > 0 && multiset(a) == multiset(b)
    ensures j < |b| && b[j] == a[|a| - 1]
    ensures multiset(a[..|a| - 1]) == multiset(b[..j] + b[j + 1..])
  {
    var x := a[|a| - 1];
    assert a == a[..|a| - 1] + [x];
    assert x in multiset(b);
    j :| 0 <= j < |b| && b[j] == x;
    var ma, mb := multiset(a[..|a| - 1]), multiset(b[..j] + b[j + 1..]);
    assert multiset(a) == ma + multiset{x};
    assert b == b[..j] + [x] + b[j + 1..];
    assert multiset(b) == mb + multiset{x};
    forall y
      ensures ma[y] == mb[y]
    {
      assert (ma + multiset{x})[y] == (mb + multiset{x})[y];
    }
  }

  /** Some stored row has exactly this production date (NaT matches nothing). */
  predicate HasDate(rows: seq<Row>, d: Day) {
    exists i | 0 <= i < |rows| :: rows[i].date == Some(d)
  }

  lemma HasDateAppend(rows: seq<Row>, r: Row, d: Day)
    ensures HasDate(rows + [r], d) <==> HasDate(rows, d) || r.date == Some(d)
  {
    if HasDate(rows, d) {
      var i :| 0 <= i < |rows| && rows[i].date == Some(d);
      assert (rows + [r])[i] == rows[i];
    }
    if r.date == Some(d) {
      assert (rows + [r])[|rows|] == r;
    }
    if HasDate(rows + [r], d) {
      var i :| 0 <= i < |rows + [r]| && (rows + [r])[i].date == Some(d);
      if i < |rows| {
        assert rows[i] == (rows + [r])[i];
      }
    }
  }

  /** The name of the k-th issue column, "ProductionIssues_k". */
  function IssueColumn(k: nat): (name: string)
    ensures |name| == 17 + |NatToString(k)|
    ensures name[..17] == "ProductionIssues_" && name[17..] == NatToString(k)
  {
    "ProductionIssues_" + NatToString(k)
  }

  lemma IssueColumnInjective(j: nat, k: nat)
    requires IssueColumn(j) == IssueColumn(k)
    ensures j == k
  {
    assert IssueColumn(j)[17..] == NatToString(j);
    assert IssueColumn(k)[17..] == NatToString(k);
    NatToStringInjective(j, k);
  }

  /** The ten issue columns by their literal names. */
  lemma IssueColumnLiterals()
    ensures IssueColumn(1) == "ProductionIssues_1" && IssueColumn(2) == "ProductionIssues_2"
    ensures IssueColumn(3) == "ProductionIssues_3" && IssueColumn(4) == "ProductionIssues_4"
    ensures IssueColumn(5) == "ProductionIssues_5" && IssueColumn(6) == "ProductionIssues_6"
    ensures IssueColumn(7) == "ProductionIssues_7" && IssueColumn(8) == "ProductionIssues_8"
    ensures IssueColumn(9) == "ProductionIssues_9" && IssueColumn(10) == "ProductionIssues_10"
  {
    assert NatToString(10) == "10";
  }
}
