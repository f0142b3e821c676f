/** book-calendar.js: the month calendar of the booking page. The page state
    is a `Calendar` record and every handler a transition on it; the
    browser's clock enters as the `today` field, alerts as an `Alert`
    result, and the dialog's animation timers are not modelled. */
module Calendar {
  import opened Wrappers
  import opened Text
  import opened Numbers

  /** A UTC calendar day; `month` is 0-based as in `getUTCMonth()`, `day`
      is 1-based. */
  datatype Day = Day(year: int, month: nat, day: nat)

  /** Leap years of the proleptic Gregorian calendar JavaScript dates use. */
  predicate IsLeap(year: int) {
    year % 4 == 0 && (year % 100 != 0 || year % 400 == 0)
  }

  /** `new Date(Date.UTC(year, month + 1, 0)).getUTCDate()`: the length of
      the month. */
  function DaysInMonth(year: int, month: nat): (r: nat)
    requires month < 12
    ensures 28 <= r <= 31
    ensures month == 1 ==> (r == 29 <==> IsLeap(year)) && (r == 28 <==> !IsLeap(year))
    ensures month != 1 ==> (r == 30 <==> month in {3, 5, 8, 10})
  {
    if month == 1 then (if IsLeap(year) then 29 else 28)
    else if month in {3, 5, 8, 10} then 30
    else 31
  }

  predicate ValidDay(d: Day) {
    d.month < 12 && 1 <= d.day <= DaysInMonth(d.year, d.month)
  }

  /** `a < b` on the midnights of two days. */
  predicate Before(a: Day, b: Day) {
    a.year < b.year
    || (a.year == b.year && a.month < b.month)
    || (a.year == b.year && a.month == b.month && a.day < b.day)
  }

  /** The day after `d`. */
  function NextDay(d: Day): (r: Day)
    requires ValidDay(d)
    ensures ValidDay(r) && Before(d, r)
  {
    if d.day < DaysInMonth(d.year, d.month) then d.(day := d.day + 1)
    else if d.month < 11 then Day(d.year, d.month + 1, 1)
    else Day(d.year + 1, 0, 1)
  }

  /** `addDaysUtc(d, n)`. */
  function AddDays(d: Day, n: nat): (r: Day)
    requires ValidDay(d)
    ensures ValidDay(r)
    ensures n > 0 ==> Before(d, r)
    ensures r.year >= d.year
    decreases n
  {
    if n == 0 then d else AddDays(NextDay(d), n - 1)
  }

  lemma BeforeTransitive(a: Day, b: Day, c: Day)
    requires Before(a, b) && Before(b, c)
    ensures Before(a, c)
  {
  }

  lemma {:induction false} AddDaysAdd(d: Day, m: nat, n: nat)
    requires ValidDay(d)
    ensures AddDays(d, m + n) == AddDays(AddDays(d, m), n)
    decreases m
  {
    if m > 0 {
      AddDaysAdd(NextDay(d), m - 1, n);
    }
  }

  /** Later offsets give later days. */
  lemma AddDaysMonotone(d: Day, m: nat, n: nat)
    requires ValidDay(d) && m < n
    ensures Before(AddDays(d, m), AddDays(d, n))
  {
    AddDaysAdd(d, m, n - m);
  }

  /** The `YYYY-MM-DD` text of a day: the year as `String` writes it, then
      the 1-based month and the day, each padded to two digits. */
  function DateString(d: Day): (r: string)
    requires ValidDay(d)
    ensures d.year >= 0 ==> |r| == |NatToString(d.year)| + 6
  {
    IntToString(d.year) + "-" + Pad2(d.month + 1) + "-" + Pad2(d.day)
  }

  /** Reads back the `YYYY-MM-DD` text `DateString` writes (a year without
      sign or leading zero), as `new Date(s + "T00:00:00Z")` does for the
      dates the calendar renders. */
  function ParseDay(s: string): (r: Option<Day>)
    ensures r.Some? ==> ValidDay(r.value) && r.value.year >= 0
  {
    if |s| < 7 then None
    else
      var ys := s[..|s| - 6];
      var mm := s[|s| - 5..|s| - 3];
      var dd := s[|s| - 2..];
      if s[|s| - 6] != '-' || s[|s| - 3] != '-' || !AllDigits(ys) || !AllDigits(mm) || !AllDigits(dd)
        || (|ys| > 1 && ys[0] == '0')
      then None
      else
        var month := DigitsValue(mm);
        var d := Day(DigitsValue(ys), if month > 0 then month - 1 else 0, DigitsValue(dd));
        if month > 0 && ValidDay(d) then Some(d) else None
  }

  /** The text of a rendered day reads back as that day. */
  lemma ParseDateString(d: Day)
    requires ValidDay(d)
    ensures d.year >= 0 ==> ParseDay(DateString(d)) == Some(d)
  {
    if d.year < 0 { return; }
    var y := NatToString(d.year);
    var mm := Pad2(d.month + 1);
    var dd := Pad2(d.day);
    assert DateString(d) == y + "-" + mm + "-" + dd;
    assert DigitsValue(y) == d.year by { DigitsValueOfNatToString(d.year); }
    ParseDayOfPieces(y, mm, dd);
  }

  /** `ParseDay` of a text assembled from well-formed pieces. */
  lemma ParseDayOfPieces(y: string, mm: string, dd: string)
    requires |y| >= 1 && AllDigits(y) && (|y| > 1 ==> y[0] != '0')
    requires |mm| == 2 && AllDigits(mm) && |dd| == 2 && AllDigits(dd)
    requires DigitsValue(mm) > 0 && ValidDay(Day(DigitsValue(y), DigitsValue(mm) - 1, DigitsValue(dd)))
    ensures ParseDay(y + "-" + mm + "-" + dd) == Some(Day(DigitsValue(y), DigitsValue(mm) - 1, DigitsValue(dd)))
  {
    var s := y + "-" + mm + "-" + dd;
    assert s[..|s| - 6] == y && s[|s| - 6] == '-' && s[|s| - 5..|s| - 3] == mm
      && s[|s| - 3] == '-' && s[|s| - 2..] == dd by { DatePieces(y, mm, dd); }
  }

  /** Where the pieces of a `YYYY-MM-DD` text lie. */
  lemma DatePieces(y: string, mm: string, dd: string)
    requires |mm| == 2 && |dd| == 2
    ensures var s := y + "-" + mm + "-" + dd;
      && |s| == |y| + 6
      && s[..|s| - 6] == y && s[|s| - 6] == '-' && s[|s| - 5..|s| - 3] == mm
      && s[|s| - 3] == '-' && s[|s| - 2..] == dd
  {
  }

  /** Different days have different texts. */
  lemma DateStringInjective(a: Day, b: Day)
    requires ValidDay(a) && ValidDay(b) && a.year >= 0 && b.year >= 0
    requires DateString(a) == DateString(b)
    ensures a == b
  {
    ParseDateString(a);
    ParseDateString(b);
  }

  // ------------------------------------------------------------ state

  /** The page state: today's date, the displayed month, the selection, the
      occupied days (as date texts) and whether the booking dialog is open. */
  datatype Calendar = Calendar(
    today: Day,
    month: nat,
    year: int,
    selected: Option<Day>,
    occupied: seq<string>,
    dialogOpen: bool)

  predicate NoDuplicates(s: seq<string>) {
    forall i, j :: 0 <= i < j < |s| ==> s[i] != s[j]
  }

  /** Months counted from year 0, to compare displayed months. */
  function MonthIndex(year: int, month: nat): int {
    12 * year + month
  }

  /** What the page keeps true: a valid displayed month never before
      today's, a selection that is a valid day and not occupied, and no day
      occupied twice. */
  predicate Good(c: Calendar) {
    && ValidDay(c.today) && c.today.year >= 0
    && c.month < 12
    && MonthIndex(c.year, c.month) >= MonthIndex(c.today.year, c.today.month)
    && (c.selected.Some? ==> ValidDay(c.selected.value) && DateString(c.selected.value) !in c.occupied)
    && NoDuplicates(c.occupied)
  }

  /** The state when the page loads: today's month, nothing selected, and
      the days 5, 12 and 23 days ahead occupied. */
  function Initial(today: Day): (c: Calendar)
    requires ValidDay(today) && today.year >= 0
    ensures Good(c)
    ensures c.month == today.month && c.year == today.year && c.today == today
    ensures c.selected.None? && !c.dialogOpen
    ensures |c.occupied| == 3
    ensures c.occupied == [DateString(AddDays(today, 5)), DateString(AddDays(today, 12)), DateString(AddDays(today, 23))]
  {
    Calendar(today, today.month, today.year, None, DaysAhead(today, 5, 12, 23), false)
  }

  /** The texts of the days `m`, `n` and `k` days after `today`: three
      distinct texts when the offsets increase. */
  function DaysAhead(today: Day, m: nat, n: nat, k: nat): (r: seq<string>)
    requires ValidDay(today) && today.year >= 0 && m < n < k
    ensures |r| == 3 && NoDuplicates(r)
  {
    var a := AddDays(today, m);
    var b := AddDays(today, n);
    var d := AddDays(today, k);
    AddDaysMonotone(today, m, n);
    AddDaysMonotone(today, n, k);
    AddDaysMonotone(today, m, k);
    EarlierDayDiffers(a, b);
    EarlierDayDiffers(b, d);
    EarlierDayDiffers(a, d);
    [DateString(a), DateString(b), DateString(d)]
  }

  lemma EarlierDayDiffers(a: Day, b: Day)
    requires ValidDay(a) && ValidDay(b) && a.year >= 0 && Before(a, b)
    ensures DateString(a) != DateString(b)
  {
    if DateString(a) == DateString(b) {
      DateStringInjective(a, b);
    }
  }

  /** The previous-month button is disabled on today's month. */
  predicate PrevDisabled(c: Calendar) {
    c.year == c.today.year && c.month == c.today.month
  }

  /** The next-month handler. */
  function Next(c: Calendar): (r: Calendar)
    requires c.month < 12
    ensures r.month < 12
    ensures MonthIndex(r.year, r.month) == MonthIndex(c.year, c.month) + 1
    ensures r == c.(month := r.month, year := r.year)
  {
    if c.month + 1 > 11 then c.(month := 0, year := c.year + 1) else c.(month := c.month + 1)
  }

  /** The previous-month handler; a click on the disabled button does
      nothing. */
  function Prev(c: Calendar): (r: Calendar)
    requires c.month < 12
    ensures r.month < 12
    ensures PrevDisabled(c) ==> r == c
    ensures !PrevDisabled(c) ==> MonthIndex(r.year, r.month) == MonthIndex(c.year, c.month) - 1
    ensures r == c.(month := r.month, year := r.year)
  {
    if PrevDisabled(c) then c
    else if c.month == 0 then c.(month := 11, year := c.year - 1)
    else c.(month := c.month - 1)
  }

  /** Going forward and back returns to the same month, and so does going
      back (when allowed) and forward. */
  lemma PrevNextInverse(c: Calendar)
    requires Good(c)
    ensures Prev(Next(c)) == c
    ensures !PrevDisabled(c) ==> Next(Prev(c)) == c
  {
  }

  lemma NavigationKeepsGood(c: Calendar)
    requires Good(c)
    ensures Good(Next(c)) && Good(Prev(c))
  {
  }

  /** A rendered day cell: its date text, day number and flags. */
  datatype Cell = Cell(date: string, dayNumber: nat, disabled: bool, full: bool, selected: bool)

  /** The cell `updateCalendar` draws for day `n` of the displayed month:
      dated `YYYY-MM-DD`, disabled when the day is before today or occupied,
      full only when occupied, selected when it is the selected day. */
  predicate CellFor(c: Calendar, cell: Cell, n: nat)
    requires c.month < 12
  {
    var d := Day(c.year, c.month, n);
    && ValidDay(d)
    && cell.dayNumber == n
    && cell.date == DateString(d)
    && cell.full == (DateString(d) in c.occupied)
    && cell.disabled == (Before(d, c.today) || DateString(d) in c.occupied)
    && cell.selected == (c.selected.Some? && ValidDay(c.selected.value)
                         && DateString(c.selected.value) == DateString(d))
  }

  /** `updateCalendar`: one cell per day of the displayed month, and the
      state of the previous-month button. */
  method RenderMonth(c: Calendar) returns (cells: seq<Cell>, prevDisabled: bool)
    requires c.month < 12
    ensures prevDisabled == PrevDisabled(c)
    ensures |cells| == DaysInMonth(c.year, c.month)
    ensures forall i :: 0 <= i < |cells| ==> CellFor(c, cells[i], i + 1)
  {
    prevDisabled := c.year == c.today.year && c.month == c.today.month;
    var days := DaysInMonth(c.year, c.month);
    cells := [];
    var dayNumber := 1;
    while dayNumber <= days
      invariant 1 <= dayNumber <= days + 1
      invariant |cells| == dayNumber - 1
      invariant forall i :: 0 <= i < |cells| ==> CellFor(c, cells[i], i + 1)
    {
      var day := Day(c.year, c.month, dayNumber);
      var date := DateString(day);
      var past := Before(day, c.today);
      var disabled := past;
      var full := false;
      if date in c.occupied {
        full := true;
        disabled := true;
      }
      var selected := c.selected.Some? && ValidDay(c.selected.value) && DateString(c.selected.value) == date;
      if c.selected.Some? && past {
        disabled := true;
      }
      assert CellFor(c, Cell(date, dayNumber, disabled, full, selected), dayNumber);
      cells := cells + [Cell(date, dayNumber, disabled, full, selected)];
      dayNumber := dayNumber + 1;
    }
  }

  /** What a handler shows besides the new state. */
  datatype Alert = NoAlert | AlreadyBooked | SelectDate

  /** `handleDateSelection` for a clicked cell's day: an occupied day is
      refused with an alert; any other day, past ones included, becomes the
      selection. */
  function Select(c: Calendar, d: Day): (r: (Calendar, Alert))
    requires ValidDay(d)
    ensures DateString(d) in c.occupied ==> r == (c, AlreadyBooked)
    ensures DateString(d) !in c.occupied ==> r == (c.(selected := Some(d)), NoAlert)
    ensures Good(c) && d.year >= 0 ==> Good(r.0)
  {
    if DateString(d) in c.occupied then (c, AlreadyBooked) else (c.(selected := Some(d)), NoAlert)
  }

  /** A past day is selectable: nothing but occupation refuses a day. */
  lemma PastDaySelectable(c: Calendar, d: Day)
    requires ValidDay(d) && Before(d, c.today) && DateString(d) !in c.occupied
    ensures Select(c, d).0.selected == Some(d)
  {
  }

  /** The "book" button: opens the dialog showing the selected day, or
      alerts when nothing is selected. */
  function OpenDialog(c: Calendar): (r: (Calendar, Alert, string))
    requires c.selected.Some? ==> ValidDay(c.selected.value)
    ensures c.selected.None? ==> r == (c, SelectDate, "")
    ensures c.selected.Some? ==> r.0 == c.(dialogOpen := true) && r.1 == NoAlert
    ensures c.selected.Some? ==> ParseDay(r.2) == Some(c.selected.value) || c.selected.value.year < 0
  {
    match c.selected
    case None => (c, SelectDate, "")
    case Some(d) =>
      ParseDateString(d);
      (c.(dialogOpen := true), NoAlert, DateString(d))
  }

  /** The booking form's submit: the selected day becomes occupied, the
      selection is cleared and the dialog closes; without a selection
      nothing changes. */
  function Submit(c: Calendar): (r: Calendar)
    requires c.selected.Some? ==> ValidDay(c.selected.value)
    ensures c.selected.None? ==> r == c
    ensures c.selected.Some? ==>
      && r.occupied == c.occupied + [DateString(c.selected.value)]
      && r.selected.None? && !r.dialogOpen
      && r.today == c.today && r.month == c.month && r.year == c.year
    ensures Good(c) ==> Good(r)
  {
    match c.selected
    case None => c
    case Some(d) =>
      var occupied := c.occupied + [DateString(d)];
      assert Good(c) ==> NoDuplicates(occupied) by {
        if Good(c) {
          forall i, j | 0 <= i < j < |occupied|
            ensures occupied[i] != occupied[j]
          {
            if j == |c.occupied| {
              assert occupied[i] == c.occupied[i];
            }
          }
        }
      }
      c.(selected := None, occupied := occupied, dialogOpen := false)
  }

  /** A submitted day can no longer be selected. */
  lemma SubmittedDayRefused(c: Calendar)
    requires c.selected.Some? && ValidDay(c.selected.value)
    ensures Select(Submit(c), c.selected.value).1 == AlreadyBooked
  {
    var d := c.selected.value;
    assert Submit(c).occupied[|c.occupied|] == DateString(d);
  }
}
