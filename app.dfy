/** The second version of the production-log app (app.py): loading the
    worksheet with its numeric coercion, the YTD metrics pair, date_exists,
    the issue timer with its Reset, the new-entry save and the delete tool. */
module App {
  import opened Options
  import opened Calendar
  import opened Numeral
  import opened Duration
  import opened Ledger

  /** ALL_COLUMNS: the shared columns, without TempDate. */
  const AllColumns: seq<Column> := SharedColumns

  /** The columns load_gsheets_data makes numeric. */
  const NumericColumns: seq<Column> := [NoOfJobs, DailyProductionTotal, YearlyProductionTotal, YtdJobsTotal]

  // ---------------------------------------------------------------- loading

  /** The read gives nothing to load: no rows, no ProductionDate column
      (KeyError), or a date pd.to_datetime cannot read (it raises without
      errors='coerce'). Each case ends in the empty table. */
  predicate LoadsEmpty(header: seq<Column>, raw: seq<RawRow>) {
    |raw| == 0 || ProductionDate !in header || exists i | 0 <= i < |raw| :: raw[i].date.Malformed?
  }

  /** The parsed, normalised date of a row; NaT for an empty cell. */
  function DateOf(r: RawRow): Option<Day> {
    if r.date.Valid? then Some(r.date.day) else None
  }

  /** pd.to_numeric(data[col], errors='coerce').fillna(0) on one column. */
  function CoerceColumn(rows: seq<Row>, col: Column): (coerced: seq<Row>)
    ensures |coerced| == |rows|
    ensures forall i | 0 <= i < |rows| :: coerced[i].date == rows[i].date
    ensures forall i | 0 <= i < |rows| :: CellAt(coerced[i], col) == Num(CellNumber(CellAt(rows[i], col)))
    ensures forall i, c | 0 <= i < |rows| && c != col :: CellAt(coerced[i], c) == CellAt(rows[i], c)
  {
    seq(|rows|, i requires 0 <= i < |rows| => Row(rows[i].date, rows[i].cells[col := Num(CellNumber(CellAt(rows[i], col)))]))
  }

  /** The ProductionDate cell after loading: the parsed, normalised
      Timestamp, or NaT for an empty cell. */
  function StampCell(date: Option<Day>): Cell {
    match date
    case None => Missing
    case Some(d) => DateText(d, Stamp)
  }

  /** A cell after loading: the ProductionDate cell replaced by its parsed
      date, numeric columns of the sheet read as numbers (0 for anything
      that is not one), every other cell as read. */
  function LoadedCell(header: seq<Column>, cols: seq<Column>, r: RawRow, c: Column): Cell {
    if c == ProductionDate then StampCell(DateOf(r))
    else if c in cols && c in header then Num(CellNumber(RawCellAt(r, c)))
    else RawCellAt(r, c)
  }

  /** load_gsheets_data over the sheet's header and rows. */
  method Load(header: seq<Column>, raw: seq<RawRow>) returns (rows: seq<Row>)
    ensures LoadsEmpty(header, raw) ==> rows == []
    ensures !LoadsEmpty(header, raw) ==>
      && |rows| == |raw|
      && (forall i | 0 <= i < |raw| :: rows[i].date == DateOf(raw[i]))
      && (forall i, c | 0 <= i < |raw| :: CellAt(rows[i], c) == LoadedCell(header, NumericColumns, raw[i], c))
  {
    if LoadsEmpty(header, raw) {
      return [];
    }
    rows := seq(|raw|, i requires 0 <= i < |raw| => Row(DateOf(raw[i]), raw[i].cells[ProductionDate := StampCell(DateOf(raw[i]))]));
    for j := 0 to |NumericColumns|
      invariant |rows| == |raw|
      invariant forall i | 0 <= i < |raw| :: rows[i].date == DateOf(raw[i])
      invariant forall i, c | 0 <= i < |raw| :: CellAt(rows[i], c) == LoadedCell(header, NumericColumns[..j], raw[i], c)
    {
      var col := NumericColumns[j];
      assert col !in NumericColumns[..j];
      if col in header {
        rows := CoerceColumn(rows, col);
      }
      forall i, c | 0 <= i < |raw|
        ensures CellAt(rows[i], c) == LoadedCell(header, NumericColumns[..j + 1], raw[i], c)
      {
        assert c in NumericColumns[..j + 1] <==> c in NumericColumns[..j] || c == col;
      }
    }
    assert NumericColumns[..|NumericColumns|] == NumericColumns;
  }

  /** After loading, every numeric column of the sheet holds numbers only. */
  lemma LoadedNumeric(header: seq<Column>, r: RawRow, c: Column)
    requires c in NumericColumns && c in header
    ensures LoadedCell(header, NumericColumns, r, c).Num?
    ensures CellNumber(LoadedCell(header, NumericColumns, r, c)) == CellNumber(RawCellAt(r, c))
  {
  }

  // ------------------------------------------------------------ YTD metrics

  /** calculate_ytd_metrics: production and jobs summed over the rows dated
      from 1 January of the selected day's year up to the day before it; an
      empty table gives (0, 0). */
  function YtdMetrics(selected: Day, rows: seq<Row>): (r: (int, int))
    ensures r == RowwisePair(selected, rows)
  {
    ColumnsAreRowwise(selected, rows);
    if |rows| == 0 then (0, 0)
    else (WindowSum(rows, DailyProductionTotal, selected), WindowSum(rows, NoOfJobs, selected))
  }

  /** The pair accumulated row by row: each row in the window adds its own
      production and jobs. */
  function RowwisePair(selected: Day, rows: seq<Row>): (int, int) {
    if |rows| == 0 then (0, 0)
    else
      var p := RowwisePair(selected, rows[..|rows| - 1]);
      var r := rows[|rows| - 1];
      if InWindow(r.date, selected) then (p.0 + CellNumber(CellAt(r, DailyProductionTotal)), p.1 + CellNumber(CellAt(r, NoOfJobs)))
      else p
  }

  /** Summing column by column is summing row by row. */
  lemma {:induction false} ColumnsAreRowwise(selected: Day, rows: seq<Row>)
    ensures RowwisePair(selected, rows) == (WindowSum(rows, DailyProductionTotal, selected), WindowSum(rows, NoOfJobs, selected))
  {
    if |rows| > 0 {
      ColumnsAreRowwise(selected, rows[..|rows| - 1]);
      RowwiseLast(selected, rows);
      WindowSumLast(rows, DailyProductionTotal, selected);
      WindowSumLast(rows, NoOfJobs, selected);
    }
  }

  /** The last row adds its two window terms to the pair of the rows before
      it. */
  lemma RowwiseLast(selected: Day, rows: seq<Row>)
    requires |rows| > 0
    ensures var p, r := RowwisePair(selected, rows[..|rows| - 1]), rows[|rows| - 1];
      RowwisePair(selected, rows) == (p.0 + WindowTerm(r, DailyProductionTotal, selected), p.1 + WindowTerm(r, NoOfJobs, selected))
  {
  }

  /** An appended row in the window raises both metrics by its own values;
      any other appended row changes nothing. */
  lemma YtdAppend(selected: Day, rows: seq<Row>, r: Row)
    ensures InWindow(r.date, selected) ==>
      YtdMetrics(selected, rows + [r]) == (YtdMetrics(selected, rows).0 + CellNumber(CellAt(r, DailyProductionTotal)),
                                           YtdMetrics(selected, rows).1 + CellNumber(CellAt(r, NoOfJobs)))
    ensures !InWindow(r.date, selected) ==> YtdMetrics(selected, rows + [r]) == YtdMetrics(selected, rows)
  {
    WindowSumAppend(rows, r, DailyProductionTotal, selected);
    WindowSumAppend(rows, r, NoOfJobs, selected);
  }

  /** Rows outside the window never count. */
  lemma YtdOutsideWindow(selected: Day, rows: seq<Row>)
    requires forall i | 0 <= i < |rows| :: !InWindow(rows[i].date, selected)
    ensures YtdMetrics(selected, rows) == (0, 0)
  {
    if |rows| > 0 {
      WindowSumOutside(rows, DailyProductionTotal, selected);
      WindowSumOutside(rows, NoOfJobs, selected);
    }
  }

  // ------------------------------------------------------------ date_exists

  /** date_exists: the day's midnight is among the loaded ProductionDate
      values; an empty table has no date. */
  predicate DateExists(rows: seq<Row>, d: Day) {
    |rows| > 0 && HasDate(rows, d)
  }

  // -------------------------------------------------------- the new entry

  /** str(timedelta(minutes=m)) for the cleaning columns. */
  function CleaningText(minutes: int): string {
    TimedeltaText(minutes * 60 * MicrosPerSecond)
  }

  /** Under a day, a cleaning time is the clock text "H:MM:SS" of its
      seconds, and reads back as those seconds. */
  lemma CleaningTextReadsBack(minutes: int)
    requires 0 <= minutes < 1440
    ensures CleaningText(minutes) == ClockText(minutes * 60)
    ensures ParseDowntime(CleaningText(minutes)) == Some(minutes * 60)
  {
    var us := minutes * 60 * MicrosPerSecond;
    assert us / MicrosPerSecond == minutes * 60 && us % MicrosPerSecond == 0;
    assert minutes * 60 / SecondsPerDay == 0 && minutes * 60 % SecondsPerDay == minutes * 60;
    ParseClockText(minutes * 60);
  }

  /** Issue slot k (from 1): the k-th selected tag while there is one, then
      "NoIssue". */
  function IssueSlot(selected: seq<string>, k: nat): string
    requires 1 <= k
  {
    if k <= |selected| then selected[k - 1] else NoIssue
  }

  /** The entry the form saves, column by column. prev is the YTD pair before
      the day, downtime the timer display. */
  predicate EntryFor(entry: map<Column, Cell>, d: Day, jobs: nat, prod: nat, trials: nat, am: int, pm: int,
                     selected: seq<string>, downtime: string, prev: (int, int))
  {
    && entry.Keys == (set c | c in AllColumns)
    && ExplicitValues(entry, d, jobs, prod, trials, am, pm, downtime, prev)
    && WeekdayValues(entry, d)
    && IssueValues(entry, selected, IssueSlotCount + 1)
  }

  /** The values the dict literal sets, and the two totals left at 0. */
  predicate ExplicitValues(entry: map<Column, Cell>, d: Day, jobs: nat, prod: nat, trials: nat, am: int, pm: int,
                           downtime: string, prev: (int, int))
  {
    && Lookup(entry, ProductionDate) == DateText(d, IsoDate)
    && Lookup(entry, NoOfJobs) == Num(jobs)
    && Lookup(entry, NoOfTrials) == Num(trials)
    && Lookup(entry, DailyProductionTotal) == Num(prod)
    && Lookup(entry, YearlyProductionTotal) == Num(prev.0 + prod)
    && Lookup(entry, YtdJobsTotal) == Num(prev.1 + jobs)
    && Lookup(entry, WeeklyProductionTotal) == Num(0)
    && Lookup(entry, MonthlyProductionTotal) == Num(0)
    && Lookup(entry, CleanMachineAm) == Text(CleaningText(am))
    && Lookup(entry, CleanMachinePm) == Text(CleaningText(pm))
    && Lookup(entry, CleanMachineTotal) == Text(CleaningText(am + pm))
    && Lookup(entry, IssueResolutionTotal) == Text(downtime)
  }

  /** The weekday column of the day holds 1, the other six hold 0. */
  predicate WeekdayValues(entry: map<Column, Cell>, d: Day) {
    forall w: WeekdayIndex :: Lookup(entry, DayOfWeek(w)) == Num(if w == Weekday(d) then 1 else 0)
  }

  /** The issue columns before the bound hold their slots. */
  predicate IssueValues(entry: map<Column, Cell>, selected: seq<string>, bound: nat) {
    forall k | 1 <= k < bound :: Lookup(entry, ProductionIssues(k)) == Text(IssueSlot(selected, k))
  }

  /** The entry dict app.py starts from: every listed column at 0. */
  function Zeros(): (m: map<Column, Cell>)
    ensures m.Keys == set c | c in AllColumns
    ensures forall c | c in m :: m[c] == Num(0)
  {
    map c | c in AllColumns :: Num(0)
  }

  /** The dict literal of explicit values the entry is updated with. */
  function Updates(d: Day, jobs: nat, prod: nat, trials: nat, am: int, pm: int, downtime: string, prev: (int, int)): map<Column, Cell> {
    DictLiteral(DateText(d, IsoDate), Num(jobs), Num(trials), Num(prod), Num(prev.0 + prod), Num(prev.1 + jobs),
                Text(CleaningText(am)), Text(CleaningText(pm)), Text(CleaningText(am + pm)), Text(downtime), Weekday(d))
  }

  /** The shape of that literal: ten named columns, and the weekday column
      strftime('%A') names last, set to 1. */
  function DictLiteral(date: Cell, jobs: Cell, trials: Cell, prod: Cell, yearly: Cell, ytdJobs: Cell,
                       am: Cell, pm: Cell, clean: Cell, resolution: Cell, weekday: WeekdayIndex): map<Column, Cell> {
    map[
      ProductionDate := date,
      NoOfJobs := jobs,
      NoOfTrials := trials,
      DailyProductionTotal := prod,
      YearlyProductionTotal := yearly,
      YtdJobsTotal := ytdJobs,
      CleanMachineAm := am,
      CleanMachinePm := pm,
      CleanMachineTotal := clean,
      IssueResolutionTotal := resolution,
      DayOfWeek(weekday) := Num(1)]
  }

  /** The columns of ALL_COLUMNS, by shape: any column but TempDate and an
      issue column outside 1 to 10. */
  predicate InSheet(c: Column) {
    !c.TempDate? && (c.ProductionIssues? ==> 1 <= c.k <= IssueSlotCount)
  }

  lemma SheetHasColumn(c: Column)
    requires InSheet(c)
    ensures c in AllColumns
  {
    assert AllColumns[..12] == FixedColumns;
    match c
    case ProductionIssues(k) => assert AllColumns[11 + k] == c;
    case DayOfWeek(w) => assert AllColumns[22 + w] == c;
    case ProductionDate => assert AllColumns[0] == c;
    case NoOfJobs => assert AllColumns[1] == c;
    case NoOfTrials => assert AllColumns[2] == c;
    case DailyProductionTotal => assert AllColumns[3] == c;
    case WeeklyProductionTotal => assert AllColumns[4] == c;
    case MonthlyProductionTotal => assert AllColumns[5] == c;
    case YearlyProductionTotal => assert AllColumns[6] == c;
    case YtdJobsTotal => assert AllColumns[7] == c;
    case CleanMachineAm => assert AllColumns[8] == c;
    case CleanMachinePm => assert AllColumns[9] == c;
    case CleanMachineTotal => assert AllColumns[10] == c;
    case IssueResolutionTotal => assert AllColumns[11] == c;
  }

  lemma ListedInSheet()
    ensures forall c | c in AllColumns :: InSheet(c)
  {
    FixedListed();
    forall i | 0 <= i < |AllColumns|
      ensures InSheet(AllColumns[i])
    {
      if i < 12 {
        assert AllColumns[i] == FixedColumns[i];
      } else if i < 22 {
        IssuesListed();
        assert AllColumns[i] == ProductionIssues(i - 11);
      } else {
        DaysListed();
        assert AllColumns[i] == DayOfWeek(i - 22);
      }
    }
  }

  /** ALL_COLUMNS lists exactly the columns of that shape. */
  lemma InSheetListed(c: Column)
    ensures InSheet(c) <==> c in AllColumns
  {
    if InSheet(c) {
      SheetHasColumn(c);
    }
    if c in AllColumns {
      ListedInSheet();
    }
  }

  /** Builds the entry as the save does: every column at 0, then the dict
      literal of explicit values, then the ten issue columns one by one. */
  method ComposeEntry(d: Day, jobs: nat, prod: nat, trials: nat, am: int, pm: int,
                      selected: seq<string>, downtime: string, prev: (int, int))
    returns (entry: map<Column, Cell>)
    ensures EntryFor(entry, d, jobs, prod, trials, am, pm, selected, downtime, prev)
  {
    entry := Zeros();
    entry := entry + Updates(d, jobs, prod, trials, am, pm, downtime, prev);
    UpdatesFacts(d, jobs, prod, trials, am, pm, downtime, prev);
    LiteralMerged(Zeros(), Updates(d, jobs, prod, trials, am, pm, downtime, prev), d, jobs, prod, trials, am, pm, downtime, prev);
    for i := 1 to IssueSlotCount + 1
      invariant entry.Keys == set c | c in AllColumns
      invariant ExplicitValues(entry, d, jobs, prod, trials, am, pm, downtime, prev)
      invariant WeekdayValues(entry, d)
      invariant IssueValues(entry, selected, i)
    {
      var issue := if i <= |selected| then selected[i - 1] else NoIssue;
      IssueKeys(entry, i, Text(issue));
      IssueKeepsExplicit(entry, i, Text(issue), d, jobs, prod, trials, am, pm, downtime, prev);
      IssueKeepsOthers(entry, i, Text(issue), d, selected);
      entry := entry[ProductionIssues(i) := Text(issue)];
    }
  }

  /** Writing an issue column of the sheet adds no column. */
  lemma IssueKeys(entry: map<Column, Cell>, i: nat, v: Cell)
    requires 1 <= i <= IssueSlotCount
    requires entry.Keys == set c | c in AllColumns
    ensures entry[ProductionIssues(i) := v].Keys == set c | c in AllColumns
  {
    InSheetListed(ProductionIssues(i));
  }

  /** Writing an issue column keeps the explicit values. */
  lemma IssueKeepsExplicit(entry: map<Column, Cell>, i: nat, v: Cell, d: Day, jobs: nat, prod: nat, trials: nat, am: int, pm: int,
                           downtime: string, prev: (int, int))
    requires ExplicitValues(entry, d, jobs, prod, trials, am, pm, downtime, prev)
    ensures ExplicitValues(entry[ProductionIssues(i) := v], d, jobs, prod, trials, am, pm, downtime, prev)
  {
    IssueWriteAgrees(entry, i, v);
    ExplicitAgree(entry, entry[ProductionIssues(i) := v], d, jobs, prod, trials, am, pm, downtime, prev);
  }

  lemma IssueWriteAgrees(entry: map<Column, Cell>, i: nat, v: Cell)
    ensures forall c: Column | !c.ProductionIssues? :: Lookup(entry[ProductionIssues(i) := v], c) == Lookup(entry, c)
  {
  }

  /** The explicit values live outside the issue columns. */
  lemma ExplicitAgree(a: map<Column, Cell>, b: map<Column, Cell>, d: Day, jobs: nat, prod: nat, trials: nat, am: int, pm: int,
                      downtime: string, prev: (int, int))
    requires forall c: Column | !c.ProductionIssues? :: Lookup(b, c) == Lookup(a, c)
    requires ExplicitValues(a, d, jobs, prod, trials, am, pm, downtime, prev)
    ensures ExplicitValues(b, d, jobs, prod, trials, am, pm, downtime, prev)
  {
  }

  /** Writing issue column i keeps the weekday flags and the issue columns
      before it, and adds its own slot. */
  lemma IssueKeepsOthers(entry: map<Column, Cell>, i: nat, v: Cell, d: Day, selected: seq<string>)
    requires 1 <= i && v == Text(IssueSlot(selected, i))
    requires WeekdayValues(entry, d)
    requires IssueValues(entry, selected, i)
    ensures WeekdayValues(entry[ProductionIssues(i) := v], d)
    ensures IssueValues(entry[ProductionIssues(i) := v], selected, i + 1)
  {
  }

  /** What the entry needs of the dict literal: its values, and the columns
      it leaves alone. */
  predicate SetsExplicit(u: map<Column, Cell>, d: Day, jobs: nat, prod: nat, trials: nat, am: int, pm: int,
                         downtime: string, prev: (int, int))
  {
    && (forall c | c in u :: !c.ProductionIssues? && !c.TempDate? && (c.DayOfWeek? ==> c.weekday == Weekday(d)))
    && WeeklyProductionTotal !in u && MonthlyProductionTotal !in u
    && Lookup(u, ProductionDate) == DateText(d, IsoDate)
    && Lookup(u, NoOfJobs) == Num(jobs)
    && Lookup(u, NoOfTrials) == Num(trials)
    && Lookup(u, DailyProductionTotal) == Num(prod)
    && Lookup(u, YearlyProductionTotal) == Num(prev.0 + prod)
    && Lookup(u, YtdJobsTotal) == Num(prev.1 + jobs)
    && Lookup(u, CleanMachineAm) == Text(CleaningText(am))
    && Lookup(u, CleanMachinePm) == Text(CleaningText(pm))
    && Lookup(u, CleanMachineTotal) == Text(CleaningText(am + pm))
    && Lookup(u, IssueResolutionTotal) == Text(downtime)
    && Lookup(u, DayOfWeek(Weekday(d))) == Num(1)
  }

  lemma UpdatesFacts(d: Day, jobs: nat, prod: nat, trials: nat, am: int, pm: int, downtime: string, prev: (int, int))
    ensures SetsExplicit(Updates(d, jobs, prod, trials, am, pm, downtime, prev), d, jobs, prod, trials, am, pm, downtime, prev)
  {
    LiteralSetsExplicit(DateText(d, IsoDate), Num(jobs), Num(trials), Num(prod), Num(prev.0 + prod), Num(prev.1 + jobs),
                        Text(CleaningText(am)), Text(CleaningText(pm)), Text(CleaningText(am + pm)), Text(downtime),
                        Weekday(d), d, jobs, prod, trials, am, pm, downtime, prev);
  }

  lemma LiteralSetsExplicit(date: Cell, jobsCell: Cell, trialsCell: Cell, prodCell: Cell, yearly: Cell, ytdJobs: Cell,
                            amCell: Cell, pmCell: Cell, clean: Cell, resolution: Cell, weekday: WeekdayIndex,
                            d: Day, jobs: nat, prod: nat, trials: nat, am: int, pm: int, downtime: string, prev: (int, int))
    requires date == DateText(d, IsoDate) && weekday == Weekday(d)
    requires jobsCell == Num(jobs) && trialsCell == Num(trials) && prodCell == Num(prod)
    requires yearly == Num(prev.0 + prod) && ytdJobs == Num(prev.1 + jobs)
    requires amCell == Text(CleaningText(am)) && pmCell == Text(CleaningText(pm)) && clean == Text(CleaningText(am + pm))
    requires resolution == Text(downtime)
    ensures SetsExplicit(DictLiteral(date, jobsCell, trialsCell, prodCell, yearly, ytdJobs, amCell, pmCell, clean, resolution, weekday),
                         d, jobs, prod, trials, am, pm, downtime, prev)
  {
    DictLiteralKeys(date, jobsCell, trialsCell, prodCell, yearly, ytdJobs, amCell, pmCell, clean, resolution, weekday);
    DictLiteralValues(date, jobsCell, trialsCell, prodCell, yearly, ytdJobs, amCell, pmCell, clean, resolution, weekday);
  }

  /** The literal sets no issue column, not TempDate, neither weekly nor
      monthly total, and no weekday column other than its own. */
  lemma DictLiteralKeys(date: Cell, jobs: Cell, trials: Cell, prod: Cell, yearly: Cell, ytdJobs: Cell,
                        am: Cell, pm: Cell, clean: Cell, resolution: Cell, weekday: WeekdayIndex)
    ensures forall c | c in DictLiteral(date, jobs, trials, prod, yearly, ytdJobs, am, pm, clean, resolution, weekday) ::
      !c.ProductionIssues? && !c.TempDate? && !c.WeeklyProductionTotal? && !c.MonthlyProductionTotal? &&
      (c.DayOfWeek? ==> c.weekday == weekday)
  {
  }

  /** Each column the literal names holds the value given for it. */
  lemma DictLiteralValues(date: Cell, jobs: Cell, trials: Cell, prod: Cell, yearly: Cell, ytdJobs: Cell,
                          am: Cell, pm: Cell, clean: Cell, resolution: Cell, weekday: WeekdayIndex)
    ensures var u := DictLiteral(date, jobs, trials, prod, yearly, ytdJobs, am, pm, clean, resolution, weekday);
      && Lookup(u, ProductionDate) == date && Lookup(u, NoOfJobs) == jobs && Lookup(u, NoOfTrials) == trials
      && Lookup(u, DailyProductionTotal) == prod && Lookup(u, YearlyProductionTotal) == yearly
      && Lookup(u, YtdJobsTotal) == ytdJobs && Lookup(u, CleanMachineAm) == am && Lookup(u, CleanMachinePm) == pm
      && Lookup(u, CleanMachineTotal) == clean && Lookup(u, IssueResolutionTotal) == resolution
      && Lookup(u, DayOfWeek(weekday)) == Num(1)
  {
  }

  /** Zeros updated with the literal: the sheet's columns, the explicit
      values, and the weekday flags. */
  lemma LiteralMerged(zeros: map<Column, Cell>, u: map<Column, Cell>,
                      d: Day, jobs: nat, prod: nat, trials: nat, am: int, pm: int, downtime: string, prev: (int, int))
    requires zeros.Keys == set c | c in AllColumns
    requires forall c | c in zeros :: zeros[c] == Num(0)
    requires SetsExplicit(u, d, jobs, prod, trials, am, pm, downtime, prev)
    ensures (zeros + u).Keys == set c | c in AllColumns
    ensures ExplicitValues(zeros + u, d, jobs, prod, trials, am, pm, downtime, prev)
    ensures WeekdayValues(zeros + u, d)
  {
    MergedKeys(zeros, u);
    ZeroLookups(zeros);
    MergedExplicit(zeros, u, d, jobs, prod, trials, am, pm, downtime, prev);
    MergedWeekday(zeros, u, d);
  }

  /** The columns the literal leaves alone read 0. */
  lemma ZeroLookups(zeros: map<Column, Cell>)
    requires zeros.Keys == set c | c in AllColumns
    requires forall c | c in zeros :: zeros[c] == Num(0)
    ensures Lookup(zeros, WeeklyProductionTotal) == Num(0) && Lookup(zeros, MonthlyProductionTotal) == Num(0)
    ensures forall w: WeekdayIndex :: Lookup(zeros, DayOfWeek(w)) == Num(0)
  {
    InSheetListed(WeeklyProductionTotal);
    InSheetListed(MonthlyProductionTotal);
    forall w: WeekdayIndex
      ensures Lookup(zeros, DayOfWeek(w)) == Num(0)
    {
      InSheetListed(DayOfWeek(w));
    }
  }

  /** The literal names only columns of the sheet. */
  lemma MergedKeys(zeros: map<Column, Cell>, u: map<Column, Cell>)
    requires zeros.Keys == set c | c in AllColumns
    requires forall c | c in u :: !c.ProductionIssues? && !c.TempDate?
    ensures (zeros + u).Keys == set c | c in AllColumns
  {
    forall c | c in u
      ensures c in AllColumns
    {
      InSheetListed(c);
    }
  }

  lemma MergedExplicit(zeros: map<Column, Cell>, u: map<Column, Cell>,
                       d: Day, jobs: nat, prod: nat, trials: nat, am: int, pm: int, downtime: string, prev: (int, int))
    requires Lookup(zeros, WeeklyProductionTotal) == Num(0) && Lookup(zeros, MonthlyProductionTotal) == Num(0)
    requires SetsExplicit(u, d, jobs, prod, trials, am, pm, downtime, prev)
    ensures ExplicitValues(zeros + u, d, jobs, prod, trials, am, pm, downtime, prev)
  {
    var e := zeros + u;
    assert Lookup(e, ProductionDate) == DateText(d, IsoDate) && Lookup(e, NoOfJobs) == Num(jobs);
    assert Lookup(e, NoOfTrials) == Num(trials) && Lookup(e, DailyProductionTotal) == Num(prod);
    assert Lookup(e, YearlyProductionTotal) == Num(prev.0 + prod) && Lookup(e, YtdJobsTotal) == Num(prev.1 + jobs);
    assert Lookup(e, WeeklyProductionTotal) == Num(0) && Lookup(e, MonthlyProductionTotal) == Num(0);
    assert Lookup(e, CleanMachineAm) == Text(CleaningText(am)) && Lookup(e, CleanMachinePm) == Text(CleaningText(pm));
    assert Lookup(e, CleanMachineTotal) == Text(CleaningText(am + pm)) && Lookup(e, IssueResolutionTotal) == Text(downtime);
  }

  lemma MergedWeekday(zeros: map<Column, Cell>, u: map<Column, Cell>, d: Day)
    requires forall w: WeekdayIndex :: Lookup(zeros, DayOfWeek(w)) == Num(0)
    requires Lookup(u, DayOfWeek(Weekday(d))) == Num(1)
    requires forall c | c in u :: c.DayOfWeek? ==> c.weekday == Weekday(d)
    ensures WeekdayValues(zeros + u, d)
  {
  }

  // ----------------------------------------------------------- delete tool

  /** The delete tool keeps the rows whose date differs from the chosen
      one: every row with that date goes, rows with other dates or NaT
      stay, in order. */
  function DeleteByDate(rows: seq<Row>, d: Day): (kept: seq<Row>)
    ensures |kept| <= |rows|
    ensures forall i | 0 <= i < |kept| :: kept[i].date != Some(d) && kept[i] in rows
  {
    if |rows| == 0 then []
    else (if rows[0].date == Some(d) then [] else [rows[0]]) + DeleteByDate(rows[1..], d)
  }

  lemma {:induction false} DeleteConcat(a: seq<Row>, b: seq<Row>, d: Day)
    ensures DeleteByDate(a + b, d) == DeleteByDate(a, d) + DeleteByDate(b, d)
  {
    if |a| > 0 {
      assert (a + b)[0] == a[0] && (a + b)[1..] == a[1..] + b;
      DeleteConcat(a[1..], b, d);
    } else {
      assert a + b == b;
    }
  }

  /** No row with the date is left. */
  lemma DeleteRemovesDate(rows: seq<Row>, d: Day)
    ensures !HasDate(DeleteByDate(rows, d), d)
  {
  }

  /** A table without the date is kept as it is. */
  lemma {:induction false} DeleteWithoutMatch(rows: seq<Row>, d: Day)
    requires !HasDate(rows, d)
    ensures DeleteByDate(rows, d) == rows
  {
    if |rows| > 0 {
      assert rows[0].date != Some(d);
      assert !HasDate(rows[1..], d) by {
        forall i | 0 <= i < |rows[1..]|
          ensures rows[1..][i].date != Some(d)
        {
          assert rows[1..][i] == rows[i + 1];
        }
      }
      DeleteWithoutMatch(rows[1..], d);
      assert rows == [rows[0]] + rows[1..];
    }
  }

  /** Deleting twice is deleting once. */
  lemma DeleteIdempotent(rows: seq<Row>, d: Day)
    ensures DeleteByDate(DeleteByDate(rows, d), d) == DeleteByDate(rows, d)
  {
    DeleteRemovesDate(rows, d);
    DeleteWithoutMatch(DeleteByDate(rows, d), d);
  }

  /** Deleting the date of a newly saved row undoes the save, when the table
      had no row of that date before it. */
  lemma DeleteUndoesSave(rows: seq<Row>, r: Row, d: Day)
    requires !HasDate(rows, d) && r.date == Some(d)
    ensures DeleteByDate(rows + [r], d) == rows
  {
    DeleteConcat(rows, [r], d);
    DeleteWithoutMatch(rows, d);
    assert DeleteByDate([r], d) == [] + DeleteByDate([], d);
  }

  /** Two rows of different dates: deleting the first date leaves the second row. */
  lemma DeleteExample(r1: Row, r2: Row, d: Day)
    requires r1.date == Some(d) && r2.date != Some(d)
    ensures DeleteByDate([r1, r2], d) == [r2]
  {
    assert [r1, r2][1..] == [r2];
    assert [r2][1..] == [];
  }

  // ------------------------------------------------------------- the session

  /** The session state of the timer and the form. Times and durations are
      integer microseconds; now is the wall-clock time of the current run. */
  class Session {
    var formVersion: nat
    var accumulated: int
    var timerStart: Option<int>
    var isTimerRunning: bool

    /** The timer runs exactly when it has a start time. */
    predicate Valid()
      reads this
    {
      isTimerRunning <==> timerStart.Some?
    }

    /** The initial session_state values. */
    constructor ()
      ensures Valid()
      ensures formVersion == 0 && accumulated == 0 && timerStart == None && !isTimerRunning
    {
      formVersion := 0;
      accumulated := 0;
      timerStart := None;
      isTimerRunning := false;
    }

    /** The downtime shown: the accumulated total, plus the open session
      while the timer runs. */
    function CurrentTotal(now: int): int
      reads this
      requires Valid()
    {
      accumulated + (if isTimerRunning then now - timerStart.value else 0)
    }

    /** str(total).split('.')[0]: the total without its fraction of a second. */
    function Display(now: int): string
      reads this
      requires Valid()
    {
      WholeSecondsText(CurrentTotal(now))
    }

    /** Start, offered only while the timer is idle. */
    method StartTimer(now: int)
      requires Valid() && !isTimerRunning
      modifies this
      ensures Valid() && isTimerRunning && timerStart == Some(now)
      ensures accumulated == old(accumulated) && formVersion == old(formVersion)
      ensures CurrentTotal(now) == old(CurrentTotal(now))
    {
      timerStart := Some(now);
      isTimerRunning := true;
    }

    /** Stop, offered only while the timer runs: the open session is added to
      the total, the timer goes idle and its start time is cleared. */
    method StopTimer(now: int)
      requires Valid() && isTimerRunning
      modifies this
      ensures Valid() && !isTimerRunning && timerStart == None
      ensures accumulated == old(accumulated) + (now - old(timerStart).value)
      ensures formVersion == old(formVersion)
      ensures CurrentTotal(now) == old(CurrentTotal(now))
    {
      accumulated := accumulated + (now - timerStart.value);
      isTimerRunning := false;
      timerStart := None;
    }

    /** Reset clears only the accumulated total: a running timer keeps
      running, and from then on shows just its open session. */
    method Reset()
      requires Valid()
      modifies this
      ensures Valid() && accumulated == 0
      ensures isTimerRunning == old(isTimerRunning) && timerStart == old(timerStart) && formVersion == old(formVersion)
      ensures forall t :: CurrentTotal(t) == old(CurrentTotal(t)) - old(accumulated)
    {
      accumulated := 0;
    }

    /** The form's submit: nothing happens for a date already in the table.
      Otherwise the table sent is the loaded rows followed by the new entry
      as a row of its date, built from the YTD pair before the day and the
      timer display; when the write succeeds (stored), the form version
      rises by one and the accumulated downtime is cleared. A failed write
      changes no state. */
    method Submit(rows: seq<Row>, d: Day, jobs: nat, prod: nat, trials: nat, am: int, pm: int,
                  selected: seq<string>, now: int, stored: bool)
      returns (sent: Option<seq<Row>>)
      requires Valid()
      modifies this
      ensures Valid()
      ensures DateExists(rows, d) ==> sent == None && unchanged(this)
      ensures !DateExists(rows, d) ==>
        && sent.Some? && |sent.value| == |rows| + 1 && sent.value[..|rows|] == rows
        && sent.value[|rows|].date == Some(d)
        && EntryFor(sent.value[|rows|].cells, d, jobs, prod, trials, am, pm, selected, old(Display(now)), YtdMetrics(d, rows))
      ensures !DateExists(rows, d) && stored ==>
        && formVersion == old(formVersion) + 1 && accumulated == 0
        && isTimerRunning == old(isTimerRunning) && timerStart == old(timerStart)
      ensures !DateExists(rows, d) && !stored ==> unchanged(this)
    {
      if DateExists(rows, d) {
        return None;
      }
      var downtime := Display(now);
      var entry := ComposeEntry(d, jobs, prod, trials, am, pm, selected, downtime, YtdMetrics(d, rows));
      var row := Row(Some(d), entry);
      AppendSplits(rows, row);
      sent := Some(rows + [row]);
      if stored {
        Saved();
      }
    }

    /** After a successful write: the form is reset and the downtime cleared. */
    method Saved()
      requires Valid()
      modifies this
      ensures Valid()
      ensures formVersion == old(formVersion) + 1 && accumulated == 0
      ensures isTimerRunning == old(isTimerRunning) && timerStart == old(timerStart)
    {
      formVersion := formVersion + 1;
      accumulated := 0;
    }
  }

  lemma AppendSplits<T>(a: seq<T>, x: T)
    ensures (a + [x])[..|a|] == a && (a + [x])[|a|] == x
  {
  }

  /** A saved date is found by the next date check, and the save adds the
      day's values to later YTD metrics of the same year. */
  lemma SavedRowCounts(rows: seq<Row>, r: Row, d: Day, later: Day)
    requires r.date == Some(d) && YearOf(d) == YearOf(later) && d < later
    ensures DateExists(rows + [r], d)
    ensures YtdMetrics(later, rows + [r]) == (YtdMetrics(later, rows).0 + CellNumber(CellAt(r, DailyProductionTotal)),
                                              YtdMetrics(later, rows).1 + CellNumber(CellAt(r, NoOfJobs)))
  {
    HasDateAppend(rows, r, d);
    InWindowIff(d, later);
    YtdAppend(later, rows, r);
  }
}
