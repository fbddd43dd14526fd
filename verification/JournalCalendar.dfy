/** The journal's month grid: month keys, the Monday-first tiling, and where summaries land. */
module JournalCalendar {
  import opened Wrappers
  import opened Numerals
  import opened Dates
  import JournalProtocol

  datatype DaySummary = DaySummary(date: string, realizedPnl: real)

  /** A Monday-anchored week of the API, clipped to the month. */
  datatype WeekSummary = WeekSummary(start: string, end: string, realizedPnl: real)

  datatype MonthData = MonthData(days: seq<DaySummary>, weeks: seq<WeekSummary>)

  datatype CalendarDay = CalendarDay(
    date: string, dayOfMonth: int, inMonth: bool, isWeekend: bool, isToday: bool, summary: Option<DaySummary>)

  datatype CalendarWeek = CalendarWeek(key: string, days: seq<CalendarDay>, summary: Option<WeekSummary>)

  const MIN_JOURNAL_YEAR := 1970
  const MAX_JOURNAL_YEAR := 2200

  // ---------- month keys ----------

  predicate InJournal(year: int, month: int) {
    MIN_JOURNAL_YEAR <= year <= MAX_JOURNAL_YEAR && IsMonth(month)
  }

  /** Four digits, a dash, two digits. */
  function MatchMonth(raw: string): Option<(nat, nat)> {
    if |raw| == 7 && raw[4] == '-' && AllDigits(raw[..4]) && AllDigits(raw[5..])
    then Some((NatOf(raw[..4]), NatOf(raw[5..]))) else None
  }

  function ParseMonthKey(raw: Option<string>, fallback: string): string {
    if raw.None? || raw.value == "" then fallback
    else
      match MatchMonth(raw.value)
      case None => fallback
      case Some((year, month)) => if InJournal(year, month) then raw.value else fallback
  }

  /** The year and month of a key; `now` stands for the current month, used for any other text. */
  function SplitMonthKey(key: string, now: (int, int)): (int, int) {
    match MatchMonth(key)
    case None => now
    case Some((year, month)) => (year, month)
  }

  function ClampIndex(index: int): int {
    var low := if index < MAX_JOURNAL_YEAR * 12 + 11 then index else MAX_JOURNAL_YEAR * 12 + 11;
    if low < MIN_JOURNAL_YEAR * 12 then MIN_JOURNAL_YEAR * 12 else low
  }

  function ShiftMonth(key: string, delta: int, now: (int, int)): string {
    var (year, month) := SplitMonthKey(key, now);
    var index := ClampIndex(year * 12 + (month - 1) + delta);
    MonthKey(index / 12, index % 12 + 1)
  }

  lemma SplitUndoesMonthKey(year: nat, month: nat, now: (int, int))
    requires InJournal(year, month)
    ensures SplitMonthKey(MonthKey(year, month), now) == (year, month)
    ensures ParseMonthKey(Some(MonthKey(year, month)), "") == MonthKey(year, month)
  {
    YearText(year);
    TwoDigitsText(month);
    var key := MonthKey(year, month);
    assert key[..4] == NatText(year) && key[5..] == TwoDigits(month);
  }

  /** Months counted from year zero: shifting is adding, held to the journal's years. */
  lemma ShiftMonthAdds(year: nat, month: nat, delta: int, now: (int, int)) returns (y: nat, m: nat)
    requires InJournal(year, month)
    ensures InJournal(y, m) && ShiftMonth(MonthKey(year, month), delta, now) == MonthKey(y, m)
    ensures y * 12 + (m - 1) == ClampIndex(year * 12 + (month - 1) + delta)
    ensures 1 <= m <= 12
    ensures var index := year * 12 + (month - 1) + delta;
            (y, m) == if index < 1970 * 12 then (1970, 1) else if index > 2200 * 12 + 11 then (2200, 12)
                      else (index / 12, index % 12 + 1)
  {
    SplitUndoesMonthKey(year, month, now);
    var index := ClampIndex(year * 12 + (month - 1) + delta);
    y, m := index / 12, index % 12 + 1;
  }

  lemma IndexNamesMonth(y: int, m: int, y': int, m': int)
    requires IsMonth(m) && IsMonth(m') && y * 12 + (m - 1) == y' * 12 + (m' - 1)
    ensures y == y' && m == m'
  {
  }

  /** Month steps compose while no end of the range is hit. */
  lemma ShiftMonthComposes(year: nat, month: nat, a: int, b: int, now: (int, int))
    requires InJournal(year, month)
    requires ClampIndex(year * 12 + (month - 1) + a) == year * 12 + (month - 1) + a
    ensures var key := MonthKey(year, month);
            ShiftMonth(ShiftMonth(key, a, now), b, now) == ShiftMonth(key, a + b, now)
  {
    var y, m := ShiftMonthAdds(year, month, a, now);
    var y1, m1 := ShiftMonthAdds(y, m, b, now);
    var y2, m2 := ShiftMonthAdds(year, month, a + b, now);
    IndexNamesMonth(y1, m1, y2, m2);
  }

  lemma ShiftMonthUndone(year: nat, month: nat, a: int, now: (int, int))
    requires InJournal(year, month)
    requires ClampIndex(year * 12 + (month - 1) + a) == year * 12 + (month - 1) + a
    ensures ShiftMonth(ShiftMonth(MonthKey(year, month), a, now), -a, now) == MonthKey(year, month)
  {
    var y, m := ShiftMonthAdds(year, month, a, now);
    var y1, m1 := ShiftMonthAdds(y, m, -a, now);
    IndexNamesMonth(y1, m1, year, month);
  }

  // ---------- the grid, cell by cell ----------

  function FirstNumber(year: int, month: int): int
    requires IsMonth(month)
  {
    DayNumber(year, month, 1)
  }

  /** Cells before the first of the month. */
  function Leading(year: int, month: int): int
    requires IsMonth(month)
  {
    Weekday(FirstNumber(year, month))
  }

  function WeekCount(year: int, month: int): (n: nat)
    requires IsMonth(month)
  {
    (Leading(year, month) + DaysInMonth(year, month) + 6) / 7
  }

  /** The date of a row position, padding days included. */
  function DateAt(year: int, month: int, dayOfMonth: int): (d: Date)
    requires InJournal(year, month) && -5 <= dayOfMonth <= 37
    ensures Labelled(d)
    ensures d.year == year && d.month == month <==> 1 <= dayOfMonth <= DaysInMonth(year, month)
    ensures 1 <= dayOfMonth <= DaysInMonth(year, month) ==> d == Date(year, month, dayOfMonth)
  {
    Normalise(year, month, dayOfMonth)
  }

  /** `addDays`: the key of a date some days from another. */
  function AddDays(year: int, month: int, day: int, delta: int): string
    requires InJournal(year, month) && -5 <= day + delta <= 37
  {
    DateKey(DateAt(year, month, day + delta))
  }

  /** `new Map(days)`: of several entries for a date the last one stays. */
  function FindDay(days: seq<DaySummary>, date: string): Option<DaySummary> {
    if days == [] then None
    else if days[|days| - 1].date == date then Some(days[|days| - 1])
    else FindDay(days[..|days| - 1], date)
  }

  function FindWeek(weeks: seq<WeekSummary>, start: string): Option<WeekSummary> {
    if weeks == [] then None
    else if weeks[|weeks| - 1].start == start then Some(weeks[|weeks| - 1])
    else FindWeek(weeks[..|weeks| - 1], start)
  }

  function Cell(year: int, month: int, cursor: int, offset: int, data: MonthData, today: string): CalendarDay
    requires InJournal(year, month) && 0 <= offset < 7 && -5 <= cursor <= DaysInMonth(year, month)
  {
    var inMonth := 1 <= cursor + offset <= DaysInMonth(year, month);
    var d := DateAt(year, month, cursor + offset);
    var date := DateKey(d);
    CalendarDay(date, d.day, inMonth, offset >= 5, date == today, if inMonth then FindDay(data.days, date) else None)
  }

  function Cells(year: int, month: int, cursor: int, data: MonthData, today: string): seq<CalendarDay>
    requires InJournal(year, month) && -5 <= cursor <= DaysInMonth(year, month)
  {
    seq(7, offset requires 0 <= offset < 7 => Cell(year, month, cursor, offset, data, today))
  }

  /** The first day of the month in a row. */
  function RowStart(cursor: int): int {
    if cursor < 1 then 1 else cursor
  }

  function RowEnd(year: int, month: int, cursor: int): int {
    if cursor + 6 < DaysInMonth(year, month) then cursor + 6 else DaysInMonth(year, month)
  }

  function Row(year: int, month: int, cursor: int, data: MonthData, today: string): CalendarWeek
    requires InJournal(year, month) && -5 <= cursor <= DaysInMonth(year, month)
  {
    var key := DateKey(Date(year, month, RowStart(cursor)));
    CalendarWeek(key, Cells(year, month, cursor, data, today), FindWeek(data.weeks, key))
  }

  function Cursor(year: int, month: int, i: int): int
    requires IsMonth(month)
  {
    1 - Leading(year, month) + 7 * i
  }

  lemma CursorInRange(year: int, month: int, i: int)
    requires IsMonth(month) && 0 <= i
    ensures i < WeekCount(year, month) <==> Cursor(year, month, i) <= DaysInMonth(year, month)
    ensures -5 <= Cursor(year, month, i)
    ensures i < WeekCount(year, month) ==> RowStart(Cursor(year, month, i)) <= RowEnd(year, month, Cursor(year, month, i))
    ensures i < WeekCount(year, month) ==> Cursor(year, month, i) <= RowStart(Cursor(year, month, i)) <= Cursor(year, month, i) + 6
  {
  }

  function GridRow(year: int, month: int, i: int, data: MonthData, today: string): CalendarWeek
    requires InJournal(year, month) && 0 <= i < WeekCount(year, month)
  {
    CursorInRange(year, month, i);
    Row(year, month, Cursor(year, month, i), data, today)
  }

  function Grid(year: int, month: int, data: MonthData, today: string): seq<CalendarWeek>
    requires InJournal(year, month)
  {
    seq(WeekCount(year, month), i requires 0 <= i < WeekCount(year, month) => GridRow(year, month, i, data, today))
  }

  // ---------- the loop that builds it ----------

  function FirstInMonth(days: seq<CalendarDay>): Option<CalendarDay> {
    if days == [] then None else if days[0].inMonth then Some(days[0]) else FirstInMonth(days[1..])
  }

  lemma {:induction false} FirstInMonthAt(days: seq<CalendarDay>, k: nat)
    requires k < |days| && days[k].inMonth && forall i | 0 <= i < k :: !days[i].inMonth
    ensures FirstInMonth(days) == Some(days[k])
    decreases k
  {
    if k > 0 {
      FirstInMonthAt(days[1..], k - 1);
    }
  }

  /** Every row has a day of the month, so the key is never taken from a padding day. */
  lemma RowHasMonthDay(year: int, month: int, i: int, data: MonthData, today: string)
    requires InJournal(year, month) && 0 <= i < WeekCount(year, month)
    ensures var row := GridRow(year, month, i, data, today);
            FirstInMonth(row.days).Some? && FirstInMonth(row.days).value.date == row.key
  {
    CursorInRange(year, month, i);
    var cursor := Cursor(year, month, i);
    var row := GridRow(year, month, i, data, today);
    FirstInMonthAt(row.days, RowStart(cursor) - cursor);
  }

  /** One cell, as the inner loop's body makes it. */
  method BuildCell(year: int, month: int, cursor: int, offset: int, content: MonthData, today: string)
    returns (day: CalendarDay)
    requires InJournal(year, month) && 0 <= offset < 7 && -5 <= cursor <= DaysInMonth(year, month)
    ensures day == Cell(year, month, cursor, offset, content, today)
  {
    var dayOfMonth := cursor + offset;
    var inMonth := 1 <= dayOfMonth <= DaysInMonth(year, month);
    if inMonth {
      var date := DateKey(Date(year, month, dayOfMonth));
      day := CalendarDay(date, dayOfMonth, true, offset >= 5, date == today, FindDay(content.days, date));
    } else {
      var date := AddDays(year, month, 1, dayOfMonth - 1);
      KeyDay(DateAt(year, month, dayOfMonth));
      day := CalendarDay(date, NatOf(date[8..]), false, offset >= 5, date == today, None);
    }
  }

  /** The inner loop: one row of seven. */
  method BuildRow(year: int, month: int, cursor: int, content: MonthData, today: string) returns (days: seq<CalendarDay>)
    requires InJournal(year, month) && -5 <= cursor <= DaysInMonth(year, month)
    ensures days == Cells(year, month, cursor, content, today)
  {
    days := [];
    for offset := 0 to 7
      invariant days == Cells(year, month, cursor, content, today)[..offset]
    {
      var day := BuildCell(year, month, cursor, offset, content, today);
      days := days + [day];
    }
  }

  method BuildCalendar(monthKey: string, data: Option<MonthData>, today: string, now: (int, int))
    returns (weeks: seq<CalendarWeek>)
    requires var (year, month) := SplitMonthKey(monthKey, now); InJournal(year, month)
    ensures var (year, month) := SplitMonthKey(monthKey, now);
            weeks == Grid(year, month, if data.Some? then data.value else MonthData([], []), today)
  {
    var (year, month) := SplitMonthKey(monthKey, now);
    var content := if data.Some? then data.value else MonthData([], []);
    weeks := [];
    var cursor := 1 - Weekday(DayNumber(year, month, 1));
    CursorInRange(year, month, 0);
    while cursor <= DaysInMonth(year, month)
      invariant cursor == Cursor(year, month, |weeks|)
      invariant |weeks| <= WeekCount(year, month)
      invariant weeks == Grid(year, month, content, today)[..|weeks|]
      decreases DaysInMonth(year, month) - cursor
    {
      CursorInRange(year, month, |weeks|);
      var days := BuildRow(year, month, cursor, content, today);
      RowHasMonthDay(year, month, |weeks|, content, today);
      var firstInMonth := FirstInMonth(days);
      var key := "";
      if firstInMonth.Some? {
        key := firstInMonth.value.date;
      } else {
        assert false;
      }
      var week := CalendarWeek(key, days, FindWeek(content.weeks, key));
      assert week == GridRow(year, month, |weeks|, content, today);
      weeks := weeks + [week];
      cursor := cursor + 7;
    }
    CursorInRange(year, month, |weeks|);
  }

  // ---------- the grid tiles the month ----------

  /** All cells, row after row. */
  function Flat(year: int, month: int, data: MonthData, today: string): seq<CalendarDay>
    requires InJournal(year, month)
  {
    var grid := Grid(year, month, data, today);
    seq(7 * |grid|, k requires 0 <= k < 7 * |grid| => grid[k / 7].days[k % 7])
  }

  /** Position k is k days after the Monday the grid starts on. */
  function PositionDay(year: int, month: int, k: int): int
    requires IsMonth(month)
  {
    1 - Leading(year, month) + k
  }

  lemma PositionInRange(year: int, month: int, k: int)
    requires IsMonth(month) && 0 <= k < 7 * WeekCount(year, month)
    ensures 0 <= k / 7 < WeekCount(year, month)
    ensures -5 <= PositionDay(year, month, k) <= 37
    ensures Cursor(year, month, k / 7) + k % 7 == PositionDay(year, month, k)
  {
  }

  lemma CellAt(year: int, month: int, cursor: int, offset: int, position: int, data: MonthData, today: string)
    requires InJournal(year, month) && 0 <= offset < 7 && -5 <= cursor <= DaysInMonth(year, month)
    requires position == cursor + offset
    ensures var d := DateAt(year, month, position);
            var inMonth := 1 <= position <= DaysInMonth(year, month);
            Cell(year, month, cursor, offset, data, today)
            == CalendarDay(DateKey(d), d.day, inMonth, offset >= 5, DateKey(d) == today,
                           if inMonth then FindDay(data.days, DateKey(d)) else None)
  {
  }

  lemma FlatCell(year: int, month: int, k: int, data: MonthData, today: string)
    requires InJournal(year, month) && 0 <= k < 7 * WeekCount(year, month)
    requires -5 <= PositionDay(year, month, k) <= 37
    ensures var d := DateAt(year, month, PositionDay(year, month, k));
            var inMonth := 1 <= PositionDay(year, month, k) <= DaysInMonth(year, month);
            Flat(year, month, data, today)[k]
            == CalendarDay(DateKey(d), d.day, inMonth, k % 7 >= 5, DateKey(d) == today,
                           if inMonth then FindDay(data.days, DateKey(d)) else None)
  {
    var i, offset := k / 7, k % 7;
    PositionInRange(year, month, k);
    CursorInRange(year, month, i);
    var row := GridRow(year, month, i, data, today);
    assert Grid(year, month, data, today)[i] == row;
    assert Flat(year, month, data, today)[k] == row.days[offset];
    CellAt(year, month, Cursor(year, month, i), offset, PositionDay(year, month, k), data, today);
  }

  /** A cell shows day number `n`: its label, day of the month, and flags are that day's. */
  ghost predicate ShowsDay(cell: CalendarDay, n: int, year: int, month: int, today: string) {
    exists d :: Labelled(d) && NumberOf(d) == n
      && cell.date == DateKey(d) && cell.dayOfMonth == d.day
      && (cell.inMonth <==> d.year == year && d.month == month)
      && (cell.isWeekend <==> Weekday(n) >= 5)
      && (cell.isToday <==> DateKey(d) == today)
  }

  lemma PositionWeekday(year: int, month: int, k: int)
    requires IsMonth(month)
    ensures Weekday(FirstNumber(year, month) - Leading(year, month) + k) == k % 7
  {
    WeekdayFromMonday(FirstNumber(year, month), k);
  }

  lemma CellShowsDay(year: int, month: int, k: int, data: MonthData, today: string)
    requires InJournal(year, month) && 0 <= k < 7 * WeekCount(year, month)
    ensures ShowsDay(Flat(year, month, data, today)[k], FirstNumber(year, month) - Leading(year, month) + k,
                     year, month, today)
  {
    PositionInRange(year, month, k);
    FlatCell(year, month, k, data, today);
    PositionWeekday(year, month, k);
    var day := PositionDay(year, month, k);
    NormaliseKeepsNumber(year, month, day);
    assert NumberOf(DateAt(year, month, day)) == FirstNumber(year, month) - Leading(year, month) + k;
  }

  /** Flattened, the grid is a gap-free run of days from a Monday, whole weeks of it, and each
      cell is labelled with its own date. */
  lemma GridIsConsecutive(year: int, month: int, data: MonthData, today: string)
    requires InJournal(year, month)
    ensures 4 <= |Grid(year, month, data, today)| <= 6
    ensures forall week <- Grid(year, month, data, today) :: |week.days| == 7
    ensures var monday := FirstNumber(year, month) - Leading(year, month);
            var flat := Flat(year, month, data, today);
            && Weekday(monday) == 0
            && forall k | 0 <= k < |flat| :: ShowsDay(flat[k], monday + k, year, month, today)
  {
    PositionWeekday(year, month, 0);
    forall k | 0 <= k < 7 * WeekCount(year, month)
      ensures ShowsDay(Flat(year, month, data, today)[k], FirstNumber(year, month) - Leading(year, month) + k,
                       year, month, today)
    {
      CellShowsDay(year, month, k, data, today);
    }
  }

  /** The month's own days appear once each, in order, and nowhere else. */
  lemma MonthDaysInOrder(year: int, month: int, data: MonthData, today: string)
    requires InJournal(year, month)
    ensures var flat := Flat(year, month, data, today);
            && Leading(year, month) + DaysInMonth(year, month) <= |flat|
            && (forall k | 0 <= k < |flat| ::
                  flat[k].inMonth <==> Leading(year, month) <= k < Leading(year, month) + DaysInMonth(year, month))
            && (forall day | 1 <= day <= DaysInMonth(year, month) ::
                  flat[Leading(year, month) + day - 1].date == DateKey(Date(year, month, day))
                  && flat[Leading(year, month) + day - 1].dayOfMonth == day)
  {
    var flat := Flat(year, month, data, today);
    forall k | 0 <= k < |flat|
      ensures flat[k].inMonth <==> Leading(year, month) <= k < Leading(year, month) + DaysInMonth(year, month)
    {
      PositionInRange(year, month, k);
      FlatCell(year, month, k, data, today);
    }
    forall day | 1 <= day <= DaysInMonth(year, month)
      ensures flat[Leading(year, month) + day - 1].date == DateKey(Date(year, month, day))
              && flat[Leading(year, month) + day - 1].dayOfMonth == day
    {
      FlatCell(year, month, Leading(year, month) + day - 1, data, today);
    }
  }

  // ---------- the API's weeks are the grid's rows ----------

  /** Monday-anchored spans of day numbers, clipped to `first`..`last`. */
  function Spans(cursor: int, last: int): seq<(int, int)>
    decreases last - cursor
  {
    if cursor > last then []
    else
      var sunday := cursor + 6 - Weekday(cursor);
      var end := if sunday < last then sunday else last;
      [(cursor, end)] + Spans(end + 1, last)
  }

  method WeekSpans(first: int, last: int) returns (spans: seq<(int, int)>)
    ensures spans == Spans(first, last)
  {
    spans := [];
    var cursor := first;
    while cursor <= last
      invariant spans + Spans(cursor, last) == Spans(first, last)
      decreases last - cursor
    {
      var weekEnd := cursor + (6 - Weekday(cursor));
      if last < weekEnd {
        weekEnd := last;
      }
      assert Spans(cursor, last) == [(cursor, weekEnd)] + Spans(weekEnd + 1, last);
      spans := spans + [(cursor, weekEnd)];
      cursor := weekEnd + 1;
    }
  }

  /** A grid row's days of the month, as day numbers. */
  function RowSpan(year: int, month: int, i: int): (int, int)
    requires IsMonth(month)
  {
    var base := FirstNumber(year, month) - 1;
    (base + RowStart(Cursor(year, month, i)), base + RowEnd(year, month, Cursor(year, month, i)))
  }

  /** Each row starts on a Monday or the first, and ends on a Sunday or the last. */
  lemma RowSpanClipped(year: int, month: int, i: int)
    requires IsMonth(month) && 0 <= i < WeekCount(year, month)
    ensures var (start, end) := RowSpan(year, month, i);
            var last := FirstNumber(year, month) + DaysInMonth(year, month) - 1;
            && start <= last
            && end == (if start + 6 - Weekday(start) < last then start + 6 - Weekday(start) else last)
            && (if i + 1 < WeekCount(year, month) then RowSpan(year, month, i + 1).0 == end + 1 else end == last)
  {
    CursorInRange(year, month, i);
    CursorInRange(year, month, i + 1);
    var cursor := Cursor(year, month, i);
    PositionWeekday(year, month, 7 * i + (RowStart(cursor) - cursor));
    assert (7 * i + (RowStart(cursor) - cursor)) % 7 == RowStart(cursor) - cursor;
    assert Weekday(RowSpan(year, month, i).0) == RowStart(cursor) - cursor;
  }

  function RowSpans(year: int, month: int, i: int): seq<(int, int)>
    requires IsMonth(month) && 0 <= i <= WeekCount(year, month)
  {
    seq(WeekCount(year, month) - i, j => RowSpan(year, month, i + j))
  }

  /** Spans in a row from `start` on, each ending on its Sunday or on `last`. */
  predicate Chained(spans: seq<(int, int)>, start: int, last: int)
    decreases |spans|
  {
    if spans == [] then start > last
    else
      var sunday := start + 6 - Weekday(start);
      && start <= last
      && spans[0] == (start, if sunday < last then sunday else last)
      && Chained(spans[1..], spans[0].1 + 1, last)
  }

  lemma {:induction false} ChainedAreSpans(spans: seq<(int, int)>, start: int, last: int)
    requires Chained(spans, start, last)
    ensures Spans(start, last) == spans
    decreases |spans|
  {
    if spans != [] {
      ChainedAreSpans(spans[1..], spans[0].1 + 1, last);
      assert spans == [spans[0]] + spans[1..];
    }
  }

  lemma {:induction false} RowsChained(year: int, month: int, i: int)
    requires IsMonth(month) && 0 <= i < WeekCount(year, month)
    ensures Chained(RowSpans(year, month, i), RowSpan(year, month, i).0,
                    FirstNumber(year, month) + DaysInMonth(year, month) - 1)
    decreases WeekCount(year, month) - i
  {
    RowSpanClipped(year, month, i);
    assert RowSpans(year, month, i)[1..] == RowSpans(year, month, i + 1);
    if i + 1 < WeekCount(year, month) {
      RowsChained(year, month, i + 1);
    }
  }

  /** The service's spans for a month are the grid's rows, one for one. */
  lemma SpansAreRows(year: int, month: int)
    requires IsMonth(month)
    ensures Spans(FirstNumber(year, month), FirstNumber(year, month) + DaysInMonth(year, month) - 1)
            == RowSpans(year, month, 0)
  {
    CursorInRange(year, month, 0);
    RowsChained(year, month, 0);
    ChainedAreSpans(RowSpans(year, month, 0), FirstNumber(year, month),
                    FirstNumber(year, month) + DaysInMonth(year, month) - 1);
  }

  /** The key of a day number inside the month. */
  function NumberKey(year: int, month: int, n: int): string
    requires InJournal(year, month) && 1 <= n - FirstNumber(year, month) + 1 <= DaysInMonth(year, month)
  {
    DateKey(Date(year, month, n - FirstNumber(year, month) + 1))
  }

  /** The service answers the month's weeks: a summary per span, labelled with the span's ends. */
  ghost predicate AnswersSpans(weeks: seq<WeekSummary>, year: int, month: int)
    requires InJournal(year, month)
  {
    var spans := Spans(FirstNumber(year, month), FirstNumber(year, month) + DaysInMonth(year, month) - 1);
    && |weeks| == |spans|
    && forall i | 0 <= i < |spans| ::
         && FirstNumber(year, month) <= spans[i].0 <= spans[i].1 < FirstNumber(year, month) + DaysInMonth(year, month)
         && weeks[i].start == NumberKey(year, month, spans[i].0)
         && weeks[i].end == NumberKey(year, month, spans[i].1)
  }

  lemma {:induction false} FindWeekAt(weeks: seq<WeekSummary>, i: nat)
    requires i < |weeks| && forall j | i < j < |weeks| :: weeks[j].start != weeks[i].start
    ensures FindWeek(weeks, weeks[i].start) == Some(weeks[i])
    decreases |weeks|
  {
    if i < |weeks| - 1 {
      FindWeekAt(weeks[..|weeks| - 1], i);
    }
  }

  lemma WeekLabels(weeks: seq<WeekSummary>, year: int, month: int, i: nat)
    requires InJournal(year, month) && AnswersSpans(weeks, year, month) && i < WeekCount(year, month)
    ensures |weeks| == WeekCount(year, month)
    ensures var cursor := Cursor(year, month, i);
            && 1 <= RowStart(cursor) <= RowEnd(year, month, cursor) <= DaysInMonth(year, month)
            && weeks[i].start == DateKey(Date(year, month, RowStart(cursor)))
            && weeks[i].end == DateKey(Date(year, month, RowEnd(year, month, cursor)))
  {
    SpansAreRows(year, month);
    CursorInRange(year, month, i);
    assert RowSpans(year, month, 0)[i] == RowSpan(year, month, i);
  }

  /** Every row of the grid finds its week: the summary is never missing. */
  lemma RowsFindTheirWeeks(year: int, month: int, data: MonthData, today: string, i: nat)
    requires InJournal(year, month) && AnswersSpans(data.weeks, year, month) && i < WeekCount(year, month)
    ensures var row := GridRow(year, month, i, data, today);
            i < |data.weeks| && row.summary == Some(data.weeks[i]) && row.key == data.weeks[i].start
  {
    WeekLabels(data.weeks, year, month, i);
    forall j | i < j < |data.weeks| ensures data.weeks[j].start != data.weeks[i].start {
      WeekLabels(data.weeks, year, month, j);
      KeyOrder(Date(year, month, RowStart(Cursor(year, month, i))), Date(year, month, RowStart(Cursor(year, month, j))));
    }
    FindWeekAt(data.weeks, i);
  }

  // ---------- day summaries are conserved ----------

  predicate DistinctDates(days: seq<DaySummary>) {
    forall i, j | 0 <= i < j < |days| :: days[i].date != days[j].date
  }

  ghost predicate IsMonthDay(date: string, year: int, month: int)
    requires InJournal(year, month)
  {
    exists day :: 1 <= day <= DaysInMonth(year, month) && date == DateKey(Date(year, month, day))
  }

  ghost predicate MonthSummaries(days: seq<DaySummary>, year: int, month: int)
    requires InJournal(year, month)
  {
    DistinctDates(days) && forall s <- days :: IsMonthDay(s.date, year, month)
  }

  /** Of several summaries for a date the last one is shown. */
  lemma {:induction false} FindDayAt(days: seq<DaySummary>, i: nat)
    requires i < |days| && forall j | i < j < |days| :: days[j].date != days[i].date
    ensures FindDay(days, days[i].date) == Some(days[i])
    decreases |days|
  {
    if i < |days| - 1 {
      FindDayAt(days[..|days| - 1], i);
    }
  }

  lemma {:induction false} FindDayMember(days: seq<DaySummary>, date: string)
    ensures FindDay(days, date).Some? ==> FindDay(days, date).value in days && FindDay(days, date).value.date == date
  {
    if days != [] {
      FindDayMember(days[..|days| - 1], date);
    }
  }

  lemma InMonthCell(year: int, month: int, day: int, data: MonthData, today: string)
    requires InJournal(year, month) && 1 <= day <= DaysInMonth(year, month)
    ensures var k := Leading(year, month) + day - 1;
            && 0 <= k < 7 * WeekCount(year, month)
            && Flat(year, month, data, today)[k].summary == FindDay(data.days, DateKey(Date(year, month, day)))
            && Flat(year, month, data, today)[k].date == DateKey(Date(year, month, day))
  {
    var k := Leading(year, month) + day - 1;
    PositionInRange(year, month, k);
    FlatCell(year, month, k, data, today);
  }

  lemma PaddingCell(year: int, month: int, k: int, data: MonthData, today: string)
    requires InJournal(year, month) && 0 <= k < 7 * WeekCount(year, month)
    requires !(1 <= PositionDay(year, month, k) <= DaysInMonth(year, month))
    ensures Flat(year, month, data, today)[k].summary.None?
  {
    PositionInRange(year, month, k);
    FlatCell(year, month, k, data, today);
  }

  lemma OwnCell(year: int, month: int, data: MonthData, today: string, i: nat) returns (day: int)
    requires InJournal(year, month) && MonthSummaries(data.days, year, month) && i < |data.days|
    ensures 1 <= day <= DaysInMonth(year, month) && data.days[i].date == DateKey(Date(year, month, day))
    ensures var k := Leading(year, month) + day - 1;
            && 0 <= k < |Flat(year, month, data, today)|
            && Flat(year, month, data, today)[k].summary == Some(data.days[i])
            && Flat(year, month, data, today)[k].date == data.days[i].date
  {
    assert IsMonthDay(data.days[i].date, year, month);
    day :| 1 <= day <= DaysInMonth(year, month) && data.days[i].date == DateKey(Date(year, month, day));
    InMonthCell(year, month, day, data, today);
    FindDayAt(data.days, i);
  }

  /** Each summary is in exactly one cell, and it is the cell of its date. */
  lemma SummaryLandsOnce(year: int, month: int, data: MonthData, today: string, i: nat)
    requires InJournal(year, month) && MonthSummaries(data.days, year, month) && i < |data.days|
    ensures exists k :: 0 <= k < |Flat(year, month, data, today)|
              && Flat(year, month, data, today)[k].summary == Some(data.days[i])
              && Flat(year, month, data, today)[k].date == data.days[i].date
    ensures forall k, l | 0 <= k < l < |Flat(year, month, data, today)| ::
              !(Flat(year, month, data, today)[k].summary == Flat(year, month, data, today)[l].summary == Some(data.days[i]))
  {
    var day := OwnCell(year, month, data, today, i);
    forall k | 0 <= k < |Flat(year, month, data, today)| && Flat(year, month, data, today)[k].summary == Some(data.days[i])
      ensures k == Leading(year, month) + day - 1
    {
      OnlyOwnCell(year, month, data, today, k, day, data.days[i]);
    }
  }

  lemma OnlyOwnCell(year: int, month: int, data: MonthData, today: string, k: int, day: int, s: DaySummary)
    requires InJournal(year, month) && 0 <= k < 7 * WeekCount(year, month)
    requires 1 <= day <= DaysInMonth(year, month) && s.date == DateKey(Date(year, month, day))
    requires Flat(year, month, data, today)[k].summary == Some(s)
    ensures k == Leading(year, month) + day - 1
  {
    var position := PositionDay(year, month, k);
    if 1 <= position <= DaysInMonth(year, month) {
      InMonthCell(year, month, position, data, today);
      FindDayMember(data.days, DateKey(Date(year, month, position)));
      KeyOrder(Date(year, month, position), Date(year, month, day));
    } else {
      PaddingCell(year, month, k, data, today);
    }
  }

  function Pnl(summary: Option<DaySummary>): real {
    if summary.Some? then summary.value.realizedPnl else 0.0
  }

  function CellTotal(cells: seq<CalendarDay>): real {
    if cells == [] then 0.0 else CellTotal(cells[..|cells| - 1]) + Pnl(cells[|cells| - 1].summary)
  }

  function DayTotal(days: seq<DaySummary>): real {
    if days == [] then 0.0 else DayTotal(days[..|days| - 1]) + days[|days| - 1].realizedPnl
  }

  /** What the first `upto` days of the month add up to by looking each one up. */
  function LookupTotal(days: seq<DaySummary>, year: int, month: int, upto: nat): real
    requires InJournal(year, month) && upto <= DaysInMonth(year, month)
  {
    if upto == 0 then 0.0
    else LookupTotal(days, year, month, upto - 1) + Pnl(FindDay(days, DateKey(Date(year, month, upto))))
  }

  /** Days of the month among the first `k` cells. */
  function DaysSeen(year: int, month: int, k: int): (n: nat)
    requires IsMonth(month)
    ensures n <= DaysInMonth(year, month)
  {
    var seen := k - Leading(year, month);
    if seen < 0 then 0 else if seen > DaysInMonth(year, month) then DaysInMonth(year, month) else seen
  }

  lemma DaysSeenStep(year: int, month: int, k: nat)
    requires IsMonth(month) && k > 0
    ensures var position := PositionDay(year, month, k - 1);
            if 1 <= position <= DaysInMonth(year, month)
            then DaysSeen(year, month, k) == position == DaysSeen(year, month, k - 1) + 1
            else DaysSeen(year, month, k) == DaysSeen(year, month, k - 1)
  {
  }

  /** A running total that follows the cells ends at their total. */
  lemma {:induction false} RunningTotal(cells: seq<CalendarDay>, running: nat -> real)
    requires running(0) == 0.0
    requires forall k: nat | 0 < k <= |cells| :: running(k) == running(k - 1) + Pnl(cells[k - 1].summary)
    ensures CellTotal(cells) == running(|cells|)
    decreases |cells|
  {
    if cells != [] {
      var front := cells[..|cells| - 1];
      forall k: nat | 0 < k <= |front| ensures running(k) == running(k - 1) + Pnl(front[k - 1].summary) {
        assert front[k - 1] == cells[k - 1];
      }
      RunningTotal(front, running);
    }
  }

  lemma LookupTotalStep(year: int, month: int, data: MonthData, today: string, k: nat)
    requires InJournal(year, month) && 0 < k <= 7 * WeekCount(year, month)
    ensures LookupTotal(data.days, year, month, DaysSeen(year, month, k))
            == LookupTotal(data.days, year, month, DaysSeen(year, month, k - 1))
               + Pnl(Flat(year, month, data, today)[k - 1].summary)
  {
    DaysSeenStep(year, month, k);
    var position := PositionDay(year, month, k - 1);
    if 1 <= position <= DaysInMonth(year, month) {
      InMonthCell(year, month, position, data, today);
    } else {
      PaddingCell(year, month, k - 1, data, today);
    }
  }

  lemma NoDaysSeen(year: int, month: int)
    requires IsMonth(month)
    ensures DaysSeen(year, month, 0) == 0
    ensures DaysSeen(year, month, 7 * WeekCount(year, month)) == DaysInMonth(year, month)
  {
  }

  lemma {:induction false} LookupAdds(days: seq<DaySummary>, s: DaySummary, year: int, month: int, day: int, upto: nat)
    requires InJournal(year, month) && upto <= DaysInMonth(year, month)
    requires 1 <= day <= DaysInMonth(year, month) && s.date == DateKey(Date(year, month, day))
    requires FindDay(days, s.date).None?
    ensures LookupTotal(days + [s], year, month, upto)
            == LookupTotal(days, year, month, upto) + (if day <= upto then s.realizedPnl else 0.0)
    decreases upto
  {
    if upto > 0 {
      LookupAdds(days, s, year, month, day, upto - 1);
      KeyOrder(Date(year, month, upto), Date(year, month, day));
      FindAppended(days, s, DateKey(Date(year, month, upto)));
    }
  }

  lemma FindAppended(days: seq<DaySummary>, s: DaySummary, date: string)
    ensures FindDay(days + [s], date) == if s.date == date then Some(s) else FindDay(days, date)
  {
    assert (days + [s])[..|days|] == days;
  }

  lemma {:induction false} LookupIsTotal(days: seq<DaySummary>, year: int, month: int)
    requires InJournal(year, month) && MonthSummaries(days, year, month)
    ensures LookupTotal(days, year, month, DaysInMonth(year, month)) == DayTotal(days)
    decreases |days|
  {
    if days == [] {
      EmptyLookup(year, month, DaysInMonth(year, month));
    } else {
      var front, s := days[..|days| - 1], days[|days| - 1];
      assert days == front + [s];
      var day := DayOfLabel(s.date, year, month);
      FindDayMember(front, s.date);
      assert MonthSummaries(front, year, month) by {
        assert forall t | t in front :: t in days;
      }
      LookupIsTotal(front, year, month);
      LookupAdds(front, s, year, month, day, DaysInMonth(year, month));
    }
  }

  lemma DayOfLabel(date: string, year: int, month: int) returns (day: int)
    requires InJournal(year, month) && IsMonthDay(date, year, month)
    ensures 1 <= day <= DaysInMonth(year, month) && date == DateKey(Date(year, month, day))
  {
    day :| 1 <= day <= DaysInMonth(year, month) && date == DateKey(Date(year, month, day));
  }

  lemma {:induction false} EmptyLookup(year: int, month: int, upto: nat)
    requires InJournal(year, month) && upto <= DaysInMonth(year, month)
    ensures LookupTotal([], year, month, upto) == 0.0
  {
    if upto > 0 {
      EmptyLookup(year, month, upto - 1);
    }
  }

  /** Nothing is lost and nothing counted twice: the cells add up to the month. */
  lemma TotalsConserved(year: int, month: int, data: MonthData, today: string)
    requires InJournal(year, month) && MonthSummaries(data.days, year, month)
    ensures CellTotal(Flat(year, month, data, today)) == DayTotal(data.days)
  {
    var flat := Flat(year, month, data, today);
    var running := (k: nat) => LookupTotal(data.days, year, month, DaysSeen(year, month, k));
    NoDaysSeen(year, month);
    forall k: nat | 0 < k <= |flat| ensures running(k) == running(k - 1) + Pnl(flat[k - 1].summary) {
      LookupTotalStep(year, month, data, today, k);
    }
    RunningTotal(flat, running);
    LookupIsTotal(data.days, year, month);
  }

  // ---------- picking a week's days by comparing labels ----------

  /** The panel's selection: days whose label lies between the week's labels. */
  function WeekDays(days: seq<DaySummary>, week: WeekSummary): seq<DaySummary> {
    if days == [] then []
    else
      (if StringAtMost(week.start, days[0].date) && StringAtMost(days[0].date, week.end) then [days[0]] else [])
      + WeekDays(days[1..], week)
  }

  lemma {:induction false} WeekDaysMembers(days: seq<DaySummary>, week: WeekSummary)
    ensures forall s :: s in WeekDays(days, week)
                        <==> s in days && StringAtMost(week.start, s.date) && StringAtMost(s.date, week.end)
  {
    if days != [] {
      WeekDaysMembers(days[1..], week);
      assert days == [days[0]] + days[1..];
    }
  }

  /** Comparing labels picks the days of the row, no others. */
  lemma LabelInRow(weeks: seq<WeekSummary>, year: int, month: int, i: nat, day: int)
    requires InJournal(year, month) && AnswersSpans(weeks, year, month) && i < WeekCount(year, month)
    requires 1 <= day <= DaysInMonth(year, month)
    ensures i < |weeks|
    ensures var date := DateKey(Date(year, month, day));
            StringAtMost(weeks[i].start, date) && StringAtMost(date, weeks[i].end)
            <==> Cursor(year, month, i) <= day <= Cursor(year, month, i) + 6
  {
    WeekLabels(weeks, year, month, i);
    var cursor := Cursor(year, month, i);
    KeyOrder(Date(year, month, RowStart(cursor)), Date(year, month, day));
    KeyOrder(Date(year, month, day), Date(year, month, RowEnd(year, month, cursor)));
  }

  /** The weeks partition the month's summaries: each is picked by exactly one week. */
  lemma WeeksPartitionDays(year: int, month: int, data: MonthData, s: DaySummary)
    requires InJournal(year, month) && AnswersSpans(data.weeks, year, month)
    requires s in data.days && IsMonthDay(s.date, year, month)
    ensures exists i :: 0 <= i < |data.weeks| && s in WeekDays(data.days, data.weeks[i])
    ensures forall i, j | 0 <= i < j < |data.weeks| ::
              !(s in WeekDays(data.days, data.weeks[i]) && s in WeekDays(data.days, data.weeks[j]))
  {
    var day :| 1 <= day <= DaysInMonth(year, month) && s.date == DateKey(Date(year, month, day));
    var row := RowOf(year, month, day);
    SpansAreRows(year, month);
    forall i | 0 <= i < |data.weeks| ensures s in WeekDays(data.days, data.weeks[i]) <==> i == row {
      LabelInRow(data.weeks, year, month, i, day);
      WeekDaysMembers(data.days, data.weeks[i]);
    }
    assert s in WeekDays(data.days, data.weeks[row]);
  }

  /** The one row a day of the month is in. */
  lemma RowOf(year: int, month: int, day: int) returns (row: nat)
    requires IsMonth(month) && 1 <= day <= DaysInMonth(year, month)
    ensures row < WeekCount(year, month)
    ensures forall i: int :: Cursor(year, month, i) <= day <= Cursor(year, month, i) + 6 <==> i == row
  {
    row := (day - 1 + Leading(year, month)) / 7;
  }

  // ---------- which day a URL opens ----------

  lemma MonthKeyPrefix(year: int, month: int, d: Date)
    requires InJournal(year, month) && Labelled(d)
    ensures MonthKey(year, month) + "-" <= DateKey(d) <==> d.year == year && d.month == month
  {
    YearText(year);
    YearText(d.year);
    TwoDigitsText(month);
    TwoDigitsText(d.month);
    var own, key := MonthKey(d.year, d.month), MonthKey(year, month);
    assert |own| == |key| == 7;
    assert DateKey(d) == own + "-" + TwoDigits(d.day);
    assert DateKey(d)[..8] == own + "-";
    if own == key {
      assert own[..4] == NatText(d.year) && key[..4] == NatText(year);
      assert own[5..] == TwoDigits(d.month) && key[5..] == TwoDigits(month);
    }
    assert key + "-" <= DateKey(d) <==> key + "-" == DateKey(d)[..8];
    assert key + "-" == own + "-" <==> key == own by {
      assert (key + "-")[..7] == key && (own + "-")[..7] == own;
    }
  }

  /** A click on a day of the month opens it; a date of any other month opens nothing. */
  lemma UrlOpensDaysOfItsMonth(p: JournalProtocol.Panel, server: JournalProtocol.Server, year: int, month: int, d: Date)
    requires JournalProtocol.Inv(p, server) && InJournal(year, month) && Labelled(d)
    ensures JournalProtocol.Step(p, server, JournalProtocol.Navigate(MonthKey(year, month), Some(DateKey(d)))).date
            == if d.year == year && d.month == month then Some(DateKey(d)) else None
  {
    var key := MonthKey(year, month);
    MonthKeyPrefix(year, month, d);
    if d.year == year && d.month == month {
      var rest := DateKey(d)[|key + "-"|..];
      assert DateKey(d) == key + "-" + rest;
      JournalProtocol.UrlSelectsDay(p, server, key, rest);
    } else {
      forall rest ensures Some(DateKey(d)) != Some(key + "-" + rest) {
        assert key + "-" <= key + "-" + rest;
      }
      JournalProtocol.UrlSelectsNothing(p, server, key, Some(DateKey(d)));
    }
  }

  // ---------- anchors ----------

  /** The first of January 2024 was a Monday: that month's grid starts with it, unpadded. */
  lemma January2024(data: MonthData, today: string)
    ensures Leading(2024, 1) == 0 && |Flat(2024, 1, data, today)| > 0
    ensures var first := Flat(2024, 1, data, today)[0];
            first.date == "2024-01-01" && first.inMonth && !first.isWeekend && first.dayOfMonth == 1
  {
    GregorianAnchors();
    InMonthCell(2024, 1, 1, data, today);
    MonthDaysInOrder(2024, 1, data, today);
    KeyAnchor();
    FlatCell(2024, 1, 0, data, today);
  }

  /** A key is accepted exactly when it is the key of a month from January 1970 to December
      2200, and anything else gives the fallback. */
  lemma ParseMonthKeyAccepts(raw: Option<string>, fallback: string)
    ensures raw.Some? && (exists y, m :: 1970 <= y <= 2200 && 1 <= m <= 12 && raw.value == MonthKey(y, m))
            ==> ParseMonthKey(raw, fallback) == raw.value
    ensures !(raw.Some? && exists y, m :: 1970 <= y <= 2200 && 1 <= m <= 12 && raw.value == MonthKey(y, m))
            ==> ParseMonthKey(raw, fallback) == fallback
  {
    if raw.Some? {
      if y, m :| 1970 <= y <= 2200 && 1 <= m <= 12 && raw.value == MonthKey(y, m) {
        SplitUndoesMonthKey(y, m, (y, m));
      }
      if MatchMonth(raw.value).Some? && InJournal(MatchMonth(raw.value).value.0, MatchMonth(raw.value).value.1) {
        MonthKeyOfMatch(raw.value);
      }
    }
  }

  lemma MonthKeyOfMatch(key: string)
    requires MatchMonth(key).Some? && InJournal(MatchMonth(key).value.0, MatchMonth(key).value.1)
    ensures key == MonthKey(MatchMonth(key).value.0, MatchMonth(key).value.1)
  {
    var (y, m) := MatchMonth(key).value;
    YearText(y);
    TwoDigitsText(m);
    NatOfInjective(key[..4], NatText(y));
    NatOfInjective(key[5..], TwoDigits(m));
    assert key == key[..4] + [key[4]] + key[5..];
  }
}
