/** The 2026 version of the production-log app (Digital_Printing_App.py):
    loading the worksheet, the YTD metrics triple, the 2026 downtime total,
    the issue timer, the duplicate-date guard and the new-entry save. */
module DigitalPrintingApp {
  import opened Options
  import opened Calendar
  import opened Numeral
  import opened Text
  import opened Duration
  import opened Ledger

  /** ALL_COLUMNS: the shared columns and TempDate. */
  const AllColumns: seq<Column> := SharedColumns + [TempDate]

  /** The only year the downtime total looks at. */
  const DowntimeYear := 2026

  // ---------------------------------------------------------------- loading

  /** One row after load_data: the date is parsed with errors='coerce' (an
      unreadable date becomes NaT) and DailyProductionTotal is made numeric
      with NaN replaced by 0. */
  function LoadRow(r: RawRow): Row {
    Row(if r.date.Valid? then Some(r.date.day) else None,
        r.cells[DailyProductionTotal := Num(CellNumber(RawCellAt(r, DailyProductionTotal)))])
  }

  /** load_data over the sheet's (stripped) header and rows. No rows give the
      empty table; a sheet without ProductionDate or DailyProductionTotal
      raises KeyError, which the function catches and answers with the empty
      table as well. */
  function Load(header: seq<Column>, raw: seq<RawRow>): (rows: seq<Row>)
    ensures |raw| == 0 || ProductionDate !in header || DailyProductionTotal !in header ==> rows == []
    ensures |raw| > 0 && ProductionDate in header && DailyProductionTotal in header ==>
      |rows| == |raw| &&
      forall i | 0 <= i < |rows| ::
        && (rows[i].date.Some? <==> raw[i].date.Valid?)
        && (raw[i].date.Valid? ==> rows[i].date.value == raw[i].date.day)
        && CellAt(rows[i], DailyProductionTotal) == Num(CellNumber(RawCellAt(raw[i], DailyProductionTotal)))
        && forall c | c != DailyProductionTotal :: CellAt(rows[i], c) == RawCellAt(raw[i], c)
  {
    if |raw| == 0 || ProductionDate !in header || DailyProductionTotal !in header then []
    else seq(|raw|, i requires 0 <= i < |raw| => LoadRow(raw[i]))
  }

  // ------------------------------------------------------------ YTD metrics

  /** calculate_ytd_metrics: production, jobs and trials summed over the rows
      dated from 1 January of the selected day's year up to the day before it;
      non-numeric cells add nothing; an empty table gives (0, 0, 0). */
  function YtdMetrics(selected: Day, rows: seq<Row>): (r: (int, int, int))
    ensures r == RowwiseMetrics(selected, rows)
  {
    ColumnsAreRowwise(selected, rows);
    if |rows| == 0 then (0, 0, 0)
    else (WindowSum(rows, DailyProductionTotal, selected),
          WindowSum(rows, NoOfJobs, selected),
          WindowSum(rows, NoOfTrials, selected))
  }

  /** The three values one row adds to the YTD metrics. */
  function RowMetrics(r: Row): (int, int, int) {
    (CellNumber(CellAt(r, DailyProductionTotal)), CellNumber(CellAt(r, NoOfJobs)), CellNumber(CellAt(r, NoOfTrials)))
  }

  function AddMetrics(a: (int, int, int), b: (int, int, int)): (int, int, int) {
    (a.0 + b.0, a.1 + b.1, a.2 + b.2)
  }

  /** The metrics accumulated row by row: each row in the window adds its
      own triple. */
  function RowwiseMetrics(selected: Day, rows: seq<Row>): (int, int, int) {
    if |rows| == 0 then (0, 0, 0)
    else
      var r := rows[|rows| - 1];
      AddMetrics(RowwiseMetrics(selected, rows[..|rows| - 1]), if InWindow(r.date, selected) then RowMetrics(r) else (0, 0, 0))
  }

  /** Summing column by column is summing row by row. */
  lemma {:induction false} ColumnsAreRowwise(selected: Day, rows: seq<Row>)
    ensures RowwiseMetrics(selected, rows)
         == (WindowSum(rows, DailyProductionTotal, selected), WindowSum(rows, NoOfJobs, selected), WindowSum(rows, NoOfTrials, selected))
  {
    if |rows| > 0 {
      var p, r := rows[..|rows| - 1], rows[|rows| - 1];
      ColumnsAreRowwise(selected, p);
      RowwiseLast(selected, rows);
      WindowSumLast(rows, DailyProductionTotal, selected);
      WindowSumLast(rows, NoOfJobs, selected);
      WindowSumLast(rows, NoOfTrials, selected);
    }
  }

  /** The last row adds its three window terms to the metrics of the rows
      before it. */
  lemma RowwiseLast(selected: Day, rows: seq<Row>)
    requires |rows| > 0
    ensures var r := rows[|rows| - 1];
      RowwiseMetrics(selected, rows)
      == AddMetrics(RowwiseMetrics(selected, rows[..|rows| - 1]),
                    (WindowTerm(r, DailyProductionTotal, selected), WindowTerm(r, NoOfJobs, selected), WindowTerm(r, NoOfTrials, selected)))
  {
    var r := rows[|rows| - 1];
    var m := if InWindow(r.date, selected) then RowMetrics(r) else (0, 0, 0);
    assert m == (WindowTerm(r, DailyProductionTotal, selected), WindowTerm(r, NoOfJobs, selected), WindowTerm(r, NoOfTrials, selected));
  }

  /** An appended row in the window raises each metric by exactly its own
      value; any other appended row changes nothing. */
  lemma YtdAppend(selected: Day, rows: seq<Row>, r: Row)
    ensures InWindow(r.date, selected) ==> YtdMetrics(selected, rows + [r]) == AddMetrics(YtdMetrics(selected, rows), RowMetrics(r))
    ensures !InWindow(r.date, selected) ==> YtdMetrics(selected, rows + [r]) == YtdMetrics(selected, rows)
  {
    WindowSumAppend(rows, r, DailyProductionTotal, selected);
    WindowSumAppend(rows, r, NoOfJobs, selected);
    WindowSumAppend(rows, r, NoOfTrials, selected);
  }

  /** Rows outside the window (NaT, the selected day or later, an earlier
      year) never count: a table of only such rows gives (0, 0, 0). */
  lemma YtdOutsideWindow(selected: Day, rows: seq<Row>)
    requires forall i | 0 <= i < |rows| :: !InWindow(rows[i].date, selected)
    ensures YtdMetrics(selected, rows) == (0, 0, 0)
  {
    if |rows| > 0 {
      WindowSumOutside(rows, DailyProductionTotal, selected);
      WindowSumOutside(rows, NoOfJobs, selected);
      WindowSumOutside(rows, NoOfTrials, selected);
    }
  }

  /** A row outside the window can sit anywhere in the table without
      changing the metrics. */
  lemma YtdIgnoresRow(selected: Day, a: seq<Row>, r: Row, b: seq<Row>)
    requires !InWindow(r.date, selected)
    ensures YtdMetrics(selected, a + [r] + b) == YtdMetrics(selected, a + b)
  {
    WindowSumInsert(a, r, b, DailyProductionTotal, selected);
    WindowSumInsert(a, r, b, NoOfJobs, selected);
    WindowSumInsert(a, r, b, NoOfTrials, selected);
  }

  /** The metrics do not depend on the order of the rows: any reordering
      of the table gives the same triple. */
  lemma YtdOrderFree(selected: Day, a: seq<Row>, b: seq<Row>)
    requires multiset(a) == multiset(b)
    ensures YtdMetrics(selected, a) == YtdMetrics(selected, b)
  {
    WindowSumPermutation(a, b, DailyProductionTotal, selected);
    WindowSumPermutation(a, b, NoOfJobs, selected);
    WindowSumPermutation(a, b, NoOfTrials, selected);
    assert |a| == |multiset(a)| == |multiset(b)| == |b|;
  }

  /** 2026-01-05 (1000 printed, 2 jobs) and 2026-02-10 (500 printed, 1 job)
      give (1500, 3, 0) on 2026-02-15. Days are proleptic Gregorian ordinals. */
  lemma YtdExample(r1: Row, r2: Row)
    requires r1.date == Some(739621) && r2.date == Some(739657)
    requires r1.cells == map[DailyProductionTotal := Num(1000), NoOfJobs := Num(2)]
    requires r2.cells == map[DailyProductionTotal := Num(500), NoOfJobs := Num(1)]
    ensures YtdMetrics(739662, [r1, r2]) == (1500, 3, 0)
  {
    ExampleWindow();
    ExampleRow(r1, 1000, 2);
    ExampleRow(r2, 500, 1);
    YtdTwoRows(739662, r1, r2);
  }

  lemma YtdTwoRows(selected: Day, r1: Row, r2: Row)
    requires InWindow(r1.date, selected) && InWindow(r2.date, selected)
    ensures YtdMetrics(selected, [r1, r2]) == AddMetrics(RowMetrics(r1), RowMetrics(r2))
  {
    assert [r1, r2][..1] == [r1] && [r1][..0] == [];
    var m := RowMetrics(r1);
    assert RowwiseMetrics(selected, [r1]) == AddMetrics((0, 0, 0), m) == m;
  }

  lemma ExampleRow(r: Row, prod: int, jobs: int)
    requires r.cells == map[DailyProductionTotal := Num(prod), NoOfJobs := Num(jobs)]
    ensures RowMetrics(r) == (prod, jobs, 0)
  {
    assert CellAt(r, NoOfTrials) == Missing;
  }

  /** 2026-01-05 and 2026-02-10 are in the window of 2026-02-15. */
  lemma ExampleWindow()
    ensures InWindow(Some(739621), 739662) && InWindow(Some(739657), 739662)
  {
    assert YearStart(2026) == 739617 && YearStart(2027) == 739982;
    YearOfUnique(739662, 2026);
  }

  // --------------------------------------------------------- YTD downtime

  /** What one IssueResolutionTotal cell adds to the downtime total, in
      seconds: str(value) read as "H:MM:SS" or "M:SS"; None where the value is
      skipped. NaN is dropped; a date text has no ':' and is one field. */
  function CellSeconds(c: Cell): Option<int> {
    match c
    case Num(n) => ParseDowntime(IntToString(n))
    case Text(s) => ParseDowntime(s)
    case DateText(_, _) => None
    case Missing => None
  }

  /** The rows calculate_ytd_downtime looks at: a parsed date in 2026. */
  predicate InDowntimeYear(r: Row) {
    r.date.Some? && YearOf(r.date.value) == DowntimeYear
  }

  function DowntimeTerm(r: Row): int {
    if InDowntimeYear(r) then CellSeconds(CellAt(r, IssueResolutionTotal)).GetOr(0) else 0
  }

  /** The downtime total in seconds, row by row. */
  function DowntimeTotal(rows: seq<Row>): int {
    if |rows| == 0 then 0 else DowntimeTotal(rows[..|rows| - 1]) + DowntimeTerm(rows[|rows| - 1])
  }

  /** calculate_ytd_downtime: the loop over the 2026 downtime values, adding
      each one that reads as a duration. The result is in seconds. */
  method YtdDowntime(rows: seq<Row>) returns (total: int)
    ensures total == DowntimeTotal(rows)
  {
    total := 0;
    if |rows| == 0 {
      return;
    }
    var i := 0;
    while i < |rows|
      invariant 0 <= i <= |rows|
      invariant total == DowntimeTotal(rows[..i])
    {
      var r := rows[i];
      var add := 0;
      if InDowntimeYear(r) {
        match CellAt(r, IssueResolutionTotal)
        case Missing =>
        case DateText(_, _) =>
        case Num(n) =>
          var secs := ParseDowntime(IntToString(n));
          if secs.Some? {
            add := secs.value;
          }
        case Text(s) =>
          var secs := ParseDowntime(s);
          if secs.Some? {
            add := secs.value;
          }
      }
      assert add == DowntimeTerm(r);
      DowntimeStep(rows, i);
      total := total + add;
      i := i + 1;
    }
    assert rows[..i] == rows;
  }

  lemma DowntimeStep(rows: seq<Row>, i: nat)
    requires i < |rows|
    ensures DowntimeTotal(rows[..i + 1]) == DowntimeTotal(rows[..i]) + DowntimeTerm(rows[i])
  {
    assert rows[..i + 1][..i] == rows[..i];
  }

  lemma {:induction false} DowntimeConcat(a: seq<Row>, b: seq<Row>)
    ensures DowntimeTotal(a + b) == DowntimeTotal(a) + DowntimeTotal(b)
    decreases |b|
  {
    if |b| == 0 {
      assert a + b == a;
    } else {
      var b' := b[..|b| - 1];
      assert (a + b)[..|a + b| - 1] == a + b';
      assert (a + b)[|a + b| - 1] == b[|b| - 1];
      DowntimeConcat(a, b');
    }
  }

  /** A number stored as downtime is one field, so it is always skipped. */
  lemma NumberDowntimeSkipped(n: int)
    ensures CellSeconds(Num(n)) == None
  {
    NoDotInIntToString(n);
    SplitNoSep(IntToString(n), ':');
  }

  /** A 2026 row whose downtime was saved from the timer display of a
      duration under a day adds that duration's whole seconds to the total. */
  lemma StoredDowntimeCounted(rows: seq<Row>, r: Row, us: int)
    requires InDowntimeYear(r) && 0 <= us < MicrosPerDay
    requires CellAt(r, IssueResolutionTotal) == Text(WholeSecondsText(us))
    ensures DowntimeTotal(rows + [r]) == DowntimeTotal(rows) + us / MicrosPerSecond
  {
    StoredDowntimeRoundTrip(us);
    assert (rows + [r])[..|rows|] == rows;
  }

  /** Rows of other years, or with NaT, add nothing. */
  lemma DowntimeOtherYear(rows: seq<Row>, r: Row)
    requires !InDowntimeYear(r)
    ensures DowntimeTotal(rows + [r]) == DowntimeTotal(rows)
  {
    assert (rows + [r])[..|rows|] == rows;
  }

  /** The header metric: whole hours, and the minutes left over. */
  function DowntimeHoursMinutes(totalSeconds: int): (hm: (int, int))
    ensures 0 <= hm.1 < 60
    ensures hm.0 * 3600 + hm.1 * 60 <= totalSeconds < hm.0 * 3600 + hm.1 * 60 + 60
  {
    (totalSeconds / 3600, totalSeconds % 3600 / 60)
  }

  /** The hours and minutes are the only ones that fit. */
  lemma DowntimeHoursMinutesUnique(totalSeconds: int, h: int, m: int)
    requires 0 <= m < 60 && h * 3600 + m * 60 <= totalSeconds < h * 3600 + m * 60 + 60
    ensures DowntimeHoursMinutes(totalSeconds) == (h, m)
  {
    var hm := DowntimeHoursMinutes(totalSeconds);
    WholeMinutes(totalSeconds, h, m);
    WholeMinutes(totalSeconds, hm.0, hm.1);
  }

  /** Hours and minutes that fit are the whole minutes split by 60. */
  lemma WholeMinutes(totalSeconds: int, h: int, m: int)
    requires 0 <= m < 60 && h * 3600 + m * 60 <= totalSeconds < h * 3600 + m * 60 + 60
    ensures h == totalSeconds / 60 / 60 && m == totalSeconds / 60 % 60
  {
    var a := h * 60 + m;
    assert a * 60 <= totalSeconds < a * 60 + 60;
    assert a == totalSeconds / 60;
    assert h == a / 60 && m == a % 60;
  }

  /** f"{h}h {m}m" of the header metric. */
  function DowntimeMetricText(totalSeconds: int): string {
    var hm := DowntimeHoursMinutes(totalSeconds);
    IntToString(hm.0) + "h " + IntToString(hm.1) + "m"
  }

  // -------------------------------------------------------- the new entry

  /** Is there already a row for this date? Checked only on a non-empty table. */
  predicate IsDuplicate(rows: seq<Row>, d: Day) {
    |rows| > 0 && HasDate(rows, d)
  }

  /** The default of a column not set explicitly: 0 when its header text
      contains "Total" or "NoOf", the empty text otherwise. */
  function DefaultCell(col: Column): Cell {
    DefaultFor(Name(col))
  }

  function DefaultFor(name: string): Cell {
    if Contains(name, "Total") || Contains(name, "NoOf") then Num(0) else Text("")
  }

  /** A name without an 'l' or an 'f' contains neither "Total" nor "NoOf". */
  lemma DefaultIsText(name: string)
    requires forall i | 0 <= i < |name| :: name[i] != 'l' && name[i] != 'f'
    ensures DefaultFor(name) == Text("")
  {
    NotContains(name, "Total", 4);
    NotContains(name, "NoOf", 3);
  }

  /** The columns the entry never sets: the weekly and monthly totals start
      at 0, the weekday columns at the empty text. */
  lemma UnsetColumnDefaults()
    ensures DefaultCell(WeeklyProductionTotal) == Num(0)
    ensures DefaultCell(MonthlyProductionTotal) == Num(0)
    ensures forall w: WeekdayIndex :: DefaultCell(DayOfWeek(w)) == Text("")
  {
    WeeklyDefault();
    MonthlyDefault();
    forall w: WeekdayIndex
      ensures DefaultCell(DayOfWeek(w)) == Text("")
    {
      WeekdayDefault(w);
    }
  }

  lemma WeeklyDefault()
    ensures DefaultCell(WeeklyProductionTotal) == Num(0)
  {
    ContainsAt("WeeklyProductionTotal", "Total", 16);
  }

  lemma MonthlyDefault()
    ensures DefaultCell(MonthlyProductionTotal) == Num(0)
  {
    ContainsAt("MonthlyProductionTotal", "Total", 17);
  }

  /** Each weekday column defaults to the empty text. */
  lemma WeekdayDefault(w: WeekdayIndex)
    ensures DefaultCell(DayOfWeek(w)) == Text("")
  {
    assert Name(DayOfWeek(w)) == WeekdayNames[w];
    if w == 0 {
      DefaultIsText("Monday");
    } else if w == 1 {
      DefaultIsText("Tuesday");
    } else if w == 2 {
      DefaultIsText("Wednesday");
    } else if w == 3 {
      DefaultIsText("Thursday");
    } else if w == 4 {
      DefaultIsText("Friday");
    } else if w == 5 {
      DefaultIsText("Saturday");
    } else {
      DefaultIsText("Sunday");
    }
  }

  /** The ten issue slots: an empty selection becomes ["NoIssue"], slot i
      holds the i-th selected tag while there is one, "NoIssue" after that,
      and tags past the tenth are dropped. */
  function IssueSlots(selected: seq<string>): (slots: seq<string>)
    ensures |slots| == IssueSlotCount
    ensures forall i | 0 <= i < IssueSlotCount :: slots[i] == if i < |selected| then selected[i] else NoIssue
  {
    var toSave := if |selected| == 0 then [NoIssue] else selected;
    seq(IssueSlotCount, i requires 0 <= i < IssueSlotCount => if i < |toSave| then toSave[i] else NoIssue)
  }

  /** f"{n} mins". */
  function MinutesText(n: int): string {
    IntToString(n) + " mins"
  }

  /** The entry the form saves, column by column. prev is the YTD triple
      before the day, downtime the timer display. */
  predicate EntryFor(entry: map<Column, Cell>, d: Day, jobs: nat, prod: nat, trials: nat, am: int, pm: int,
                     selected: seq<string>, downtime: string, prev: (int, int, int))
  {
    && entry.Keys == (set c | c in AllColumns)
    && ExplicitValues(entry, d, jobs, prod, trials, am, pm, downtime, prev)
    && IssueValues(entry, selected)
    && WeekdayValues(entry, d)
  }

  /** The values the dict literal sets, and the two totals left at 0. */
  predicate ExplicitValues(entry: map<Column, Cell>, d: Day, jobs: nat, prod: nat, trials: nat, am: int, pm: int,
                           downtime: string, prev: (int, int, int))
  {
    && Lookup(entry, ProductionDate) == DateText(d, MonthDayYear)
    && Lookup(entry, TempDate) == DateText(d, IsoDate)
    && Lookup(entry, NoOfJobs) == Num(jobs)
    && Lookup(entry, NoOfTrials) == Num(trials)
    && Lookup(entry, DailyProductionTotal) == Num(prod)
    && Lookup(entry, YearlyProductionTotal) == Num(prev.0 + prod)
    && Lookup(entry, YtdJobsTotal) == Num(prev.1 + jobs)
    && Lookup(entry, WeeklyProductionTotal) == Num(0)
    && Lookup(entry, MonthlyProductionTotal) == Num(0)
    && Lookup(entry, CleanMachineAm) == Text(MinutesText(am))
    && Lookup(entry, CleanMachinePm) == Text(MinutesText(pm))
    && Lookup(entry, CleanMachineTotal) == Text(MinutesText(am + pm))
    && Lookup(entry, IssueResolutionTotal) == Text(downtime)
  }

  /** ProductionIssues_k holds issue slot k - 1. */
  predicate IssueValues(entry: map<Column, Cell>, selected: seq<string>) {
    forall k | 1 <= k <= IssueSlotCount :: Lookup(entry, ProductionIssues(k)) == Text(IssueSlots(selected)[k - 1])
  }

  /** Exactly the weekday column of the day holds 1; the others are empty. */
  predicate WeekdayValues(entry: map<Column, Cell>, d: Day) {
    forall w: WeekdayIndex :: Lookup(entry, DayOfWeek(w)) == if w == Weekday(d) then Num(1) else Text("")
  }

  /** The entry dict the form starts from: 0 in every listed column whose
      name mentions a total or a count, the empty text in the others. */
  function Defaults(): (m: map<Column, Cell>)
    ensures m.Keys == set c | c in AllColumns
    ensures forall c | c in AllColumns :: Lookup(m, c) == DefaultCell(c)
  {
    map c | c in AllColumns :: DefaultCell(c)
  }

  /** The dict literal of explicit values the entry is updated with. */
  function Updates(d: Day, jobs: nat, prod: nat, trials: nat, am: int, pm: int, downtime: string, prev: (int, int, int)): map<Column, Cell> {
    DictLiteral(DateText(d, MonthDayYear), Num(jobs), Num(trials), Num(prod), Num(prev.0 + prod), Num(prev.1 + jobs),
                Text(MinutesText(am)), Text(MinutesText(pm)), Text(MinutesText(am + pm)), Text(downtime),
                DateText(d, IsoDate), Weekday(d))
  }

  /** The shape of that literal: eleven named columns, and the weekday column
      strftime('%A') names last, set to 1. */
  function DictLiteral(date: Cell, jobs: Cell, trials: Cell, prod: Cell, yearly: Cell, ytdJobs: Cell,
                       am: Cell, pm: Cell, clean: Cell, resolution: Cell, tempDate: Cell, weekday: WeekdayIndex): map<Column, Cell> {
    map[
      ProductionDate := date,
      NoOfJobs := jobs, NoOfTrials := trials,
      DailyProductionTotal := prod,
      YearlyProductionTotal := yearly,
      YtdJobsTotal := ytdJobs,
      CleanMachineAm := am, CleanMachinePm := pm,
      CleanMachineTotal := clean,
      IssueResolutionTotal := resolution,
      TempDate := tempDate,
      DayOfWeek(weekday) := Num(1)]
  }

  /** The issue dict comprehension: ProductionIssues_k holds slot k - 1, and
      it sets no other column. */
  function IssueDict(selected: seq<string>): (m: map<Column, Cell>)
    ensures forall k | 1 <= k <= IssueSlotCount ::
      Lookup(m, ProductionIssues(k)) == Text(if k <= |selected| then selected[k - 1] else NoIssue)
    ensures forall c | c in m :: c.ProductionIssues? && 1 <= c.k <= IssueSlotCount
  {
    var slots := IssueSlots(selected);
    map k: nat | 1 <= k <= IssueSlotCount :: ProductionIssues(k) := Text(slots[k - 1])
  }

  /** The issue dict holds the ten slots in order. */
  lemma IssueDictSlots(selected: seq<string>)
    ensures forall k | 1 <= k <= IssueSlotCount :: Lookup(IssueDict(selected), ProductionIssues(k)) == Text(IssueSlots(selected)[k - 1])
  {
  }

  /** The columns of ALL_COLUMNS, by shape: any column but an issue column
      outside 1 to 10. */
  predicate InSheet(c: Column) {
    c.ProductionIssues? ==> 1 <= c.k <= IssueSlotCount
  }

  lemma InSheetListed(c: Column)
    ensures InSheet(c) <==> c in AllColumns
  {
    if InSheet(c) {
      SheetHasColumn(c);
    }
    if c in AllColumns {
      ListedInSheet();
    }
  }

  lemma SheetHasColumn(c: Column)
    requires InSheet(c)
    ensures c in AllColumns
  {
    assert AllColumns[..12] == FixedColumns;
    match c
    case ProductionIssues(k) => assert AllColumns[11 + k] == c;
    case DayOfWeek(w) => assert AllColumns[22 + w] == c;
    case TempDate => assert AllColumns[29] == c;
    case ProductionDate => assert AllColumns[0] == c;
    case NoOfJobs => assert AllColumns[1] == c;
    case NoOfTrials => assert AllColumns[2] == c;
    case DailyProductionTotal => assert AllColumns[3] == c;
    case WeeklyProductionTotal => assert AllColumns[4] == c;
    case MonthlyProductionTotal => assert AllColumns[5] == c;
    case YearlyProductionTotal => assert AllColumns[6] == c;
    case YtdJobsTotal => assert AllColumns[7] == c;
    case CleanMachineAm => assert AllColumns[8] == c;
    case CleanMachinePm => assert AllColumns[9] == c;
    case CleanMachineTotal => assert AllColumns[10] == c;
    case IssueResolutionTotal => assert AllColumns[11] == c;
  }

  lemma ListedInSheet()
    ensures forall c | c in AllColumns :: InSheet(c)
  {
    FixedListed();
    forall i | 0 <= i < |AllColumns|
      ensures InSheet(AllColumns[i])
    {
      if i < 12 {
        assert AllColumns[i] == SharedColumns[i] == FixedColumns[i];
      } else if i < 22 {
        IssuesListed();
        assert AllColumns[i] == SharedColumns[i] == ProductionIssues(i - 11);
      } else if i < 29 {
        DaysListed();
        assert AllColumns[i] == SharedColumns[i] == DayOfWeek(i - 22);
      } else {
        assert AllColumns[i] == TempDate;
      }
    }
  }

  lemma AllInSheet()
    ensures forall c :: InSheet(c) <==> c in AllColumns
  {
    forall c ensures InSheet(c) <==> c in AllColumns {
      InSheetListed(c);
    }
  }

  /** Builds the entry as the save does: every column at its default, then
      the dict literal of explicit values, then the issue slots. */
  method ComposeEntry(d: Day, jobs: nat, prod: nat, trials: nat, am: int, pm: int,
                      selected: seq<string>, downtime: string, prev: (int, int, int))
    returns (entry: map<Column, Cell>)
    ensures EntryFor(entry, d, jobs, prod, trials, am, pm, selected, downtime, prev)
  {
    entry := Defaults();
    entry := entry + Updates(d, jobs, prod, trials, am, pm, downtime, prev);
    entry := entry + IssueDict(selected);
    DefaultsUnset();
    UpdatesFacts(d, jobs, prod, trials, am, pm, downtime, prev);
    IssueDictSlots(selected);
    EntryAssembled(Defaults(), Updates(d, jobs, prod, trials, am, pm, downtime, prev), IssueDict(selected),
                   d, jobs, prod, trials, am, pm, selected, downtime, prev);
  }

  /** What the entry needs of the dict literal: its values, and the columns
      it leaves alone. */
  predicate SetsExplicit(u: map<Column, Cell>, d: Day, jobs: nat, prod: nat, trials: nat, am: int, pm: int,
                         downtime: string, prev: (int, int, int))
  {
    && (forall c | c in u :: !c.ProductionIssues? && (c.DayOfWeek? ==> c.weekday == Weekday(d)))
    && WeeklyProductionTotal !in u && MonthlyProductionTotal !in u
    && Lookup(u, ProductionDate) == DateText(d, MonthDayYear)
    && Lookup(u, TempDate) == DateText(d, IsoDate)
    && Lookup(u, IssueResolutionTotal) == Text(downtime)
    && Lookup(u, NoOfJobs) == Num(jobs)
    && Lookup(u, NoOfTrials) == Num(trials)
    && Lookup(u, DailyProductionTotal) == Num(prod)
    && Lookup(u, YearlyProductionTotal) == Num(prev.0 + prod)
    && Lookup(u, YtdJobsTotal) == Num(prev.1 + jobs)
    && Lookup(u, CleanMachineAm) == Text(MinutesText(am))
    && Lookup(u, CleanMachinePm) == Text(MinutesText(pm))
    && Lookup(u, CleanMachineTotal) == Text(MinutesText(am + pm))
    && Lookup(u, DayOfWeek(Weekday(d))) == Num(1)
  }

  lemma UpdatesFacts(d: Day, jobs: nat, prod: nat, trials: nat, am: int, pm: int, downtime: string, prev: (int, int, int))
    ensures SetsExplicit(Updates(d, jobs, prod, trials, am, pm, downtime, prev), d, jobs, prod, trials, am, pm, downtime, prev)
  {
    LiteralSetsExplicit(DateText(d, MonthDayYear), Num(jobs), Num(trials), Num(prod), Num(prev.0 + prod), Num(prev.1 + jobs),
                        Text(MinutesText(am)), Text(MinutesText(pm)), Text(MinutesText(am + pm)), Text(downtime),
                        DateText(d, IsoDate), Weekday(d), d, jobs, prod, trials, am, pm, downtime, prev);
  }

  lemma LiteralSetsExplicit(date: Cell, jobsCell: Cell, trialsCell: Cell, prodCell: Cell, yearly: Cell, ytdJobs: Cell,
                            amCell: Cell, pmCell: Cell, clean: Cell, resolution: Cell, tempDate: Cell, weekday: WeekdayIndex,
                            d: Day, jobs: nat, prod: nat, trials: nat, am: int, pm: int, downtime: string, prev: (int, int, int))
    requires date == DateText(d, MonthDayYear) && tempDate == DateText(d, IsoDate) && weekday == Weekday(d)
    requires jobsCell == Num(jobs) && trialsCell == Num(trials) && prodCell == Num(prod)
    requires yearly == Num(prev.0 + prod) && ytdJobs == Num(prev.1 + jobs)
    requires amCell == Text(MinutesText(am)) && pmCell == Text(MinutesText(pm)) && clean == Text(MinutesText(am + pm))
    requires resolution == Text(downtime)
    ensures SetsExplicit(DictLiteral(date, jobsCell, trialsCell, prodCell, yearly, ytdJobs, amCell, pmCell, clean, resolution, tempDate, weekday),
                         d, jobs, prod, trials, am, pm, downtime, prev)
  {
    DictLiteralKeys(date, jobsCell, trialsCell, prodCell, yearly, ytdJobs, amCell, pmCell, clean, resolution, tempDate, weekday);
    DictLiteralTotals(date, jobsCell, trialsCell, prodCell, yearly, ytdJobs, amCell, pmCell, clean, resolution, tempDate, weekday);
    DictLiteralValues(date, jobsCell, trialsCell, prodCell, yearly, ytdJobs, amCell, pmCell, clean, resolution, tempDate, weekday);
  }

  lemma EntryAssembled(defaults: map<Column, Cell>, u: map<Column, Cell>, issues: map<Column, Cell>,
                       d: Day, jobs: nat, prod: nat, trials: nat, am: int, pm: int,
                       selected: seq<string>, downtime: string, prev: (int, int, int))
    requires defaults.Keys == set c | c in AllColumns
    requires Lookup(defaults, WeeklyProductionTotal) == Num(0) && Lookup(defaults, MonthlyProductionTotal) == Num(0)
    requires forall w: WeekdayIndex :: Lookup(defaults, DayOfWeek(w)) == Text("")
    requires SetsExplicit(u, d, jobs, prod, trials, am, pm, downtime, prev)
    requires forall k | 1 <= k <= IssueSlotCount :: Lookup(issues, ProductionIssues(k)) == Text(IssueSlots(selected)[k - 1])
    requires forall c | c in issues :: c.ProductionIssues? && 1 <= c.k <= IssueSlotCount
    ensures EntryFor(defaults + u + issues, d, jobs, prod, trials, am, pm, selected, downtime, prev)
  {
    var entry := defaults + u + issues;
    KeysPart(defaults, u, issues);
    assert entry.Keys == set c | c in AllColumns;
    ExplicitPart(defaults, u, issues, d, jobs, prod, trials, am, pm, downtime, prev);
    assert ExplicitValues(entry, d, jobs, prod, trials, am, pm, downtime, prev);
    assert IssueValues(entry, selected);
    WeekdayPart(defaults, u, issues, d);
  }

  /** The literal sets no issue column and no weekday column other than its
      own. */
  lemma DictLiteralKeys(date: Cell, jobs: Cell, trials: Cell, prod: Cell, yearly: Cell, ytdJobs: Cell,
                        am: Cell, pm: Cell, clean: Cell, resolution: Cell, tempDate: Cell, weekday: WeekdayIndex)
    ensures forall c | c in DictLiteral(date, jobs, trials, prod, yearly, ytdJobs, am, pm, clean, resolution, tempDate, weekday) ::
      !c.ProductionIssues? && (c.DayOfWeek? ==> c.weekday == weekday)
  {
  }

  /** The literal leaves the weekly and monthly totals alone. */
  lemma DictLiteralTotals(date: Cell, jobs: Cell, trials: Cell, prod: Cell, yearly: Cell, ytdJobs: Cell,
                          am: Cell, pm: Cell, clean: Cell, resolution: Cell, tempDate: Cell, weekday: WeekdayIndex)
    ensures WeeklyProductionTotal !in DictLiteral(date, jobs, trials, prod, yearly, ytdJobs, am, pm, clean, resolution, tempDate, weekday)
    ensures MonthlyProductionTotal !in DictLiteral(date, jobs, trials, prod, yearly, ytdJobs, am, pm, clean, resolution, tempDate, weekday)
  {
  }

  /** Each column the literal names holds the value given for it. */
  lemma DictLiteralValues(date: Cell, jobs: Cell, trials: Cell, prod: Cell, yearly: Cell, ytdJobs: Cell,
                          am: Cell, pm: Cell, clean: Cell, resolution: Cell, tempDate: Cell, weekday: WeekdayIndex)
    ensures var u := DictLiteral(date, jobs, trials, prod, yearly, ytdJobs, am, pm, clean, resolution, tempDate, weekday);
      && Lookup(u, ProductionDate) == date && Lookup(u, NoOfJobs) == jobs && Lookup(u, NoOfTrials) == trials
      && Lookup(u, DailyProductionTotal) == prod && Lookup(u, YearlyProductionTotal) == yearly
      && Lookup(u, YtdJobsTotal) == ytdJobs && Lookup(u, CleanMachineAm) == am && Lookup(u, CleanMachinePm) == pm
      && Lookup(u, CleanMachineTotal) == clean && Lookup(u, IssueResolutionTotal) == resolution
      && Lookup(u, TempDate) == tempDate && Lookup(u, DayOfWeek(weekday)) == Num(1)
  {
  }

  /** The columns the entry leaves at their defaults: 0 for the weekly and
      monthly totals, the empty text for every weekday column. */
  lemma DefaultsUnset()
    ensures Lookup(Defaults(), WeeklyProductionTotal) == Num(0)
    ensures Lookup(Defaults(), MonthlyProductionTotal) == Num(0)
    ensures forall w: WeekdayIndex :: Lookup(Defaults(), DayOfWeek(w)) == Text("")
  {
    UnsetColumnDefaults();
    InSheetListed(WeeklyProductionTotal);
    InSheetListed(MonthlyProductionTotal);
    forall w: WeekdayIndex
      ensures Lookup(Defaults(), DayOfWeek(w)) == Text("")
    {
      InSheetListed(DayOfWeek(w));
    }
  }

  lemma KeysPart(defaults: map<Column, Cell>, u: map<Column, Cell>, issues: map<Column, Cell>)
    requires defaults.Keys == set c | c in AllColumns
    requires forall c | c in u :: !c.ProductionIssues?
    requires forall c | c in issues :: c.ProductionIssues? && 1 <= c.k <= IssueSlotCount
    ensures (defaults + u + issues).Keys == set c | c in AllColumns
  {
    AllInSheet();
  }

  /** The explicit values survive the issue dict, and the two totals the
      literal does not name keep their default 0. */
  lemma ExplicitPart(defaults: map<Column, Cell>, u: map<Column, Cell>, issues: map<Column, Cell>,
                     d: Day, jobs: nat, prod: nat, trials: nat, am: int, pm: int, downtime: string, prev: (int, int, int))
    requires Lookup(defaults, WeeklyProductionTotal) == Num(0) && Lookup(defaults, MonthlyProductionTotal) == Num(0)
    requires WeeklyProductionTotal !in u && MonthlyProductionTotal !in u
    requires forall c | c in issues :: c.ProductionIssues?
    requires Lookup(u, ProductionDate) == DateText(d, MonthDayYear)
    requires Lookup(u, TempDate) == DateText(d, IsoDate)
    requires Lookup(u, IssueResolutionTotal) == Text(downtime)
    requires Lookup(u, NoOfJobs) == Num(jobs)
    requires Lookup(u, NoOfTrials) == Num(trials)
    requires Lookup(u, DailyProductionTotal) == Num(prod)
    requires Lookup(u, YearlyProductionTotal) == Num(prev.0 + prod)
    requires Lookup(u, YtdJobsTotal) == Num(prev.1 + jobs)
    requires Lookup(u, CleanMachineAm) == Text(MinutesText(am))
    requires Lookup(u, CleanMachinePm) == Text(MinutesText(pm))
    requires Lookup(u, CleanMachineTotal) == Text(MinutesText(am + pm))
    ensures ExplicitValues(defaults + u + issues, d, jobs, prod, trials, am, pm, downtime, prev)
  {
    var e := defaults + u + issues;
    assert Lookup(e, ProductionDate) == DateText(d, MonthDayYear) && Lookup(e, TempDate) == DateText(d, IsoDate);
    assert Lookup(e, NoOfJobs) == Num(jobs) && Lookup(e, NoOfTrials) == Num(trials);
    assert Lookup(e, DailyProductionTotal) == Num(prod) && Lookup(e, YearlyProductionTotal) == Num(prev.0 + prod);
    assert Lookup(e, YtdJobsTotal) == Num(prev.1 + jobs) && Lookup(e, IssueResolutionTotal) == Text(downtime);
    assert Lookup(e, WeeklyProductionTotal) == Num(0) && Lookup(e, MonthlyProductionTotal) == Num(0);
    assert Lookup(e, CleanMachineAm) == Text(MinutesText(am)) && Lookup(e, CleanMachinePm) == Text(MinutesText(pm));
    assert Lookup(e, CleanMachineTotal) == Text(MinutesText(am + pm));
  }

  /** Only the day's weekday column is set to 1; the others keep the empty
      default. */
  lemma WeekdayPart(defaults: map<Column, Cell>, u: map<Column, Cell>, issues: map<Column, Cell>, d: Day)
    requires Lookup(u, DayOfWeek(Weekday(d))) == Num(1)
    requires forall w: WeekdayIndex :: Lookup(defaults, DayOfWeek(w)) == Text("")
    requires forall c | c in issues :: c.ProductionIssues?
    requires forall c | c in u :: c.DayOfWeek? ==> c.weekday == Weekday(d)
    ensures WeekdayValues(defaults + u + issues, d)
  {
  }
  // -------------------------------------------------------------- saving

  /** Having a date at all implies a non-empty table, so the emptiness guard
      of the duplicate check changes nothing. */
  lemma DuplicateIffHasDate(rows: seq<Row>, d: Day)
    ensures IsDuplicate(rows, d) <==> HasDate(rows, d)
  {
  }

  /** .fillna("") on one stored row of the rewritten sheet, whose frame has
      the row's own columns and those of ALL_COLUMNS: a NaN or absent cell
      becomes the empty text, every other cell keeps its value, and no other
      column appears. */
  function FillBlank(cells: map<Column, Cell>): (filled: map<Column, Cell>)
    ensures filled.Keys == cells.Keys + (set c | c in AllColumns)
    ensures forall c | c in filled && Lookup(cells, c) == Missing :: filled[c] == Text("")
    ensures forall c | Lookup(cells, c) != Missing :: Lookup(filled, c) == Lookup(cells, c)
  {
    map c | c in cells.Keys + (set c | c in AllColumns) :: if Lookup(cells, c).Missing? then Text("") else Lookup(cells, c)
  }

  /** Filling twice is filling once: a filled row has no NaN left. */
  lemma FillBlankIdempotent(cells: map<Column, Cell>)
    ensures FillBlank(FillBlank(cells)) == FillBlank(cells)
  {
    var f := FillBlank(cells);
    var g := FillBlank(f);
    assert f.Keys + (set c | c in AllColumns) == f.Keys;
    forall c | c in g
      ensures g[c] == f[c]
    {
      assert Lookup(f, c) != Missing;
    }
  }

  /** The stored rows as the save writes them back, ProductionDate_Parsed
      dropped (it is never part of the cells here): one written row per
      stored row, on the same columns plus the sheet's, each stored value
      kept and each NaN written as the empty text. */
  function Written(rows: seq<Row>): (sheet: seq<map<Column, Cell>>)
    ensures |sheet| == |rows|
    ensures forall i | 0 <= i < |rows| :: sheet[i].Keys == rows[i].cells.Keys + (set c | c in AllColumns)
    ensures forall i, c | 0 <= i < |rows| && c in sheet[i] ::
      sheet[i][c] == if Lookup(rows[i].cells, c) == Missing then Text("") else rows[i].cells[c]
  {
    seq(|rows|, i requires 0 <= i < |rows| => FillBlank(rows[i].cells))
  }

  /** The session state of the timer and the form. Times and durations are
      integer microseconds; now is the wall-clock time of the current run. */
  class Session {
    var formVersion: nat
    var accumulated: int
    var timerStart: Option<int>
    var isTimerRunning: bool

    /** A running timer has a start time. */
    predicate Valid()
      reads this
    {
      isTimerRunning ==> timerStart.Some?
    }

    /** The initial session_state values. */
    constructor ()
      ensures Valid()
      ensures formVersion == 0 && accumulated == 0 && timerStart == None && !isTimerRunning
    {
      formVersion := 0;
      accumulated := 0;
      timerStart := None;
      isTimerRunning := false;
    }

    /** The downtime shown: the accumulated total, plus the open session
      while the timer runs. A stopped timer's stale start time is ignored. */
    function CurrentTotal(now: int): int
      reads this
      requires Valid()
    {
      accumulated + (if isTimerRunning then now - timerStart.value else 0)
    }

    /** str(total).split('.')[0]: the total without its fraction of a second. */
    function Display(now: int): string
      reads this
      requires Valid()
    {
      WholeSecondsText(CurrentTotal(now))
    }

    /** Start, offered only while the timer is idle. */
    method StartTimer(now: int)
      requires Valid() && !isTimerRunning
      modifies this
      ensures Valid() && isTimerRunning && timerStart == Some(now)
      ensures accumulated == old(accumulated) && formVersion == old(formVersion)
      ensures CurrentTotal(now) == old(CurrentTotal(now))
    {
      timerStart := Some(now);
      isTimerRunning := true;
    }

    /** Stop, offered only while the timer runs: the open session is added to
      the total and the timer goes idle. The start time is left in place. */
    method StopTimer(now: int)
      requires Valid() && isTimerRunning
      modifies this
      ensures Valid() && !isTimerRunning && timerStart == old(timerStart)
      ensures accumulated == old(accumulated) + (now - old(timerStart).value)
      ensures formVersion == old(formVersion)
      ensures CurrentTotal(now) == old(CurrentTotal(now))
      ensures forall later :: CurrentTotal(later) == accumulated
    {
      accumulated := accumulated + (now - timerStart.value);
      isTimerRunning := false;
    }

    /** After a successful write: the form is reset and the downtime cleared. */
    method Saved()
      modifies this
      requires Valid()
      ensures Valid()
      ensures formVersion == old(formVersion) + 1 && accumulated == 0
      ensures isTimerRunning == old(isTimerRunning) && timerStart == old(timerStart)
    {
      formVersion := formVersion + 1;
      accumulated := 0;
    }

    /** The form's submit: nothing happens for a date already in the table.
      Otherwise the sheet is sent the stored rows followed by the new entry,
      built from the YTD metrics before the day and the timer display; when
      the write succeeds (stored), the form version rises by one and the
      accumulated downtime is cleared. A failed write changes no state. */
    method Submit(rows: seq<Row>, d: Day, jobs: nat, prod: nat, trials: nat, am: int, pm: int,
                  selected: seq<string>, now: int, stored: bool)
      returns (sent: Option<seq<map<Column, Cell>>>)
      requires Valid()
      modifies this
      ensures Valid()
      ensures IsDuplicate(rows, d) ==> sent == None && unchanged(this)
      ensures !IsDuplicate(rows, d) ==>
        && sent.Some? && |sent.value| == |rows| + 1 && sent.value[..|rows|] == Written(rows)
        && EntryFor(sent.value[|rows|], d, jobs, prod, trials, am, pm, selected, old(Display(now)), YtdMetrics(d, rows))
      ensures !IsDuplicate(rows, d) && stored ==>
        && formVersion == old(formVersion) + 1 && accumulated == 0
        && isTimerRunning == old(isTimerRunning) && timerStart == old(timerStart)
      ensures !IsDuplicate(rows, d) && !stored ==> unchanged(this)
    {
      if IsDuplicate(rows, d) {
        return None;
      }
      var downtime := Display(now);
      var entry := ComposeEntry(d, jobs, prod, trials, am, pm, selected, downtime, YtdMetrics(d, rows));
      var previous := Written(rows);
      var sheet := previous + [entry];
      AppendSplits(previous, entry);
      sent := Some(sheet);
      if stored {
        Saved();
      }
    }
  }

  lemma AppendSplits<T>(a: seq<T>, x: T)
    ensures (a + [x])[..|a|] == a && (a + [x])[|a|] == x
  {
  }

  /** An idle timer shows the same total whenever it is read. */
  lemma IdleTotalFrozen(s: Session, t1: int, t2: int)
    requires s.Valid() && !s.isTimerRunning
    ensures s.CurrentTotal(t1) == s.CurrentTotal(t2) == s.accumulated
  {
  }

  /** A running timer's total grows by exactly the time that passes. */
  lemma RunningTotalGrows(s: Session, t1: int, t2: int)
    requires s.Valid() && s.isTimerRunning
    ensures s.CurrentTotal(t2) - s.CurrentTotal(t1) == t2 - t1
  {
  }
}
