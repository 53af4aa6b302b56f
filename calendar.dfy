/**
 * The calendar heat map of app.js: buildCalendarDates, the per-cell rule of
 * buildGrid and the month labels of buildMonths. A date is a local day
 * number counted from 1970-01-01, which was a Thursday. Turning a date into
 * its "YYYY-MM-DD" key and into its month depends on the time zone and is
 * passed in as a function.
 */
module Calendar {
  import opened Habits
  import Levels

  const Weeks: nat := 26
  const DaysPerWeek: nat := 7

  /** `Date.getDay()`: 0 is Sunday, 6 is Saturday. */
  function DayOfWeek(day: int): (dow: nat)
    ensures dow < DaysPerWeek
  {
    (day + 4) % 7
  }

  /** The first cell: the Sunday 25 weeks before the Sunday on or before `today`. */
  function GridStart(today: int): (start: int)
    ensures DayOfWeek(start) == 0
    ensures (Weeks - 1) * DaysPerWeek <= today - start < Weeks * DaysPerWeek
  {
    today - DayOfWeek(today) - (Weeks - 1) * DaysPerWeek
  }

  /** The dates of the grid, week by week: 26 weeks of 7 consecutive days. */
  function CalendarDates(today: int): (weeks: seq<seq<int>>)
    ensures |weeks| == Weeks
    ensures forall w :: 0 <= w < Weeks ==> |weeks[w]| == DaysPerWeek
  {
    seq(Weeks, w => seq(DaysPerWeek, d => GridStart(today) + w * DaysPerWeek + d))
  }

  /** buildCalendarDates: fills the weeks with nested loops, one day after another. */
  method BuildCalendarDates(today: int) returns (weeks: seq<seq<int>>)
    ensures weeks == CalendarDates(today)
  {
    var start := GridStart(today);
    weeks := [];
    for w := 0 to Weeks
      invariant |weeks| == w
      invariant forall i :: 0 <= i < w ==> weeks[i] == CalendarDates(today)[i]
    {
      var weekDates := [];
      for d := 0 to DaysPerWeek
        invariant |weekDates| == d
        invariant forall j :: 0 <= j < d ==> weekDates[j] == start + w * DaysPerWeek + j
      {
        weekDates := weekDates + [start + w * DaysPerWeek + d];
      }
      weeks := weeks + [weekDates];
    }
  }

  /**
   * The grid runs day by day from its first cell, a Sunday; column `d` of
   * every week is weekday `d`, so each week runs Sunday to Saturday.
   */
  lemma CalendarConsecutive(today: int, w: int, d: int)
    requires 0 <= w < Weeks && 0 <= d < DaysPerWeek
    ensures CalendarDates(today)[w][d] == CalendarDates(today)[0][0] + w * DaysPerWeek + d
    ensures DayOfWeek(CalendarDates(today)[w][d]) == d
  {
  }

  /** Today is in the last week, in the column of its own weekday. */
  lemma TodayInLastWeek(today: int)
    ensures CalendarDates(today)[Weeks - 1][DayOfWeek(today)] == today
  {
  }

  /** A cell lies after today exactly when it is in the last week, right of today's column. */
  lemma FutureCells(today: int, w: int, d: int)
    requires 0 <= w < Weeks && 0 <= d < DaysPerWeek
    ensures CalendarDates(today)[w][d] > today <==> w == Weeks - 1 && d > DayOfWeek(today)
  {
  }

  /** Different cells hold different dates. */
  lemma CalendarDatesDistinct(today: int, w1: int, d1: int, w2: int, d2: int)
    requires 0 <= w1 < Weeks && 0 <= d1 < DaysPerWeek
    requires 0 <= w2 < Weeks && 0 <= d2 < DaysPerWeek
    requires CalendarDates(today)[w1][d1] == CalendarDates(today)[w2][d2]
    ensures w1 == w2 && d1 == d2
  {
  }

  /** What buildGrid draws for one date. */
  datatype Cell = Cell(day: int, key: string, count: int, level: nat, future: bool, selected: bool)

  /** Only a cell that is not in the future gets a click handler. */
  predicate Clickable(c: Cell) {
    !c.future
  }

  /** One cell of buildGrid: its count (0 when absent), level, future flag and selection mark. */
  function DayCell(day: int, today: int, commits: map<string, int>, selected: Option<string>,
                   formatDate: int -> string): (c: Cell)
    ensures c.day == day && c.key == formatDate(day)
    ensures c.count == CountOf(commits, c.key) && c.level == Levels.CommitLevel(c.count)
    ensures c.future <==> today < day
    ensures c.selected <==> selected == Some(c.key)
  {
    var key := formatDate(day);
    var count := CountOf(commits, key);
    Cell(day, key, count, Levels.CommitLevel(count), day > today, selected == Some(key))
  }

  /** buildGrid: one cell per date of `weeks`, in the same layout. */
  function BuildGrid(weeks: seq<seq<int>>, today: int, commits: map<string, int>, selected: Option<string>,
                     formatDate: int -> string): (grid: seq<seq<Cell>>)
    ensures |grid| == |weeks|
    ensures forall w :: 0 <= w < |weeks| ==> |grid[w]| == |weeks[w]|
    ensures forall w, d :: 0 <= w < |weeks| && 0 <= d < |weeks[w]| ==>
              grid[w][d] == DayCell(weeks[w][d], today, commits, selected, formatDate)
  {
    seq(|weeks|, w requires 0 <= w < |weeks| =>
      seq(|weeks[w]|, d requires 0 <= d < |weeks[w]| => DayCell(weeks[w][d], today, commits, selected, formatDate)))
  }

  /**
   * In today's grid a cell can be clicked exactly when it is not after
   * today: every week but the last, and the last week up to today's column.
   */
  lemma ClickableCells(today: int, commits: map<string, int>, selected: Option<string>,
                       formatDate: int -> string, w: int, d: int)
    requires 0 <= w < Weeks && 0 <= d < DaysPerWeek
    ensures var grid := BuildGrid(CalendarDates(today), today, commits, selected, formatDate);
            Clickable(grid[w][d]) <==> w < Weeks - 1 || d <= DayOfWeek(today)
    ensures var grid := BuildGrid(CalendarDates(today), today, commits, selected, formatDate);
            Clickable(grid[w][d]) <==> grid[w][d].day <= today
  {
  }

  ghost predicate Injective(formatDate: int -> string) {
    forall a, b :: formatDate(a) == formatDate(b) ==> a == b
  }

  /** With distinct keys for distinct dates, at most one cell of the grid is marked selected. */
  lemma AtMostOneSelected(today: int, commits: map<string, int>, selected: Option<string>,
                          formatDate: int -> string, w1: int, d1: int, w2: int, d2: int)
    requires Injective(formatDate)
    requires 0 <= w1 < Weeks && 0 <= d1 < DaysPerWeek
    requires 0 <= w2 < Weeks && 0 <= d2 < DaysPerWeek
    requires var grid := BuildGrid(CalendarDates(today), today, commits, selected, formatDate);
             grid[w1][d1].selected && grid[w2][d2].selected
    ensures w1 == w2 && d1 == d2
  {
  }

  /** A week starts a month label when its first day's month differs from the previous week's. */
  predicate StartsMonth(weeks: seq<seq<int>>, monthOf: int -> int, i: int)
    requires 0 <= i < |weeks|
    requires forall w :: 0 <= w < |weeks| ==> weeks[w] != []
  {
    i == 0 || monthOf(weeks[i][0]) != monthOf(weeks[i - 1][0])
  }

  /**
   * buildMonths: walks the weeks carrying the previous week's month; a week
   * gets its month as label (Some) or an empty label (None).
   */
  method BuildMonths(weeks: seq<seq<int>>, monthOf: int -> int) returns (labels: seq<Option<int>>)
    requires forall w :: 0 <= w < |weeks| ==> weeks[w] != []
    ensures |labels| == |weeks|
    ensures forall i :: 0 <= i < |weeks| ==> (labels[i].Some? <==> StartsMonth(weeks, monthOf, i))
    ensures forall i :: 0 <= i < |weeks| && labels[i].Some? ==> labels[i].value == monthOf(weeks[i][0])
  {
    var lastMonth: Option<int> := None;
    labels := [];
    for i := 0 to |weeks|
      invariant |labels| == i
      invariant lastMonth == if i == 0 then None else Some(monthOf(weeks[i - 1][0]))
      invariant forall k :: 0 <= k < i ==> (labels[k].Some? <==> StartsMonth(weeks, monthOf, k))
      invariant forall k :: 0 <= k < i && labels[k].Some? ==> labels[k].value == monthOf(weeks[k][0])
    {
      var month := monthOf(weeks[i][0]);
      var monthLabel := if Some(month) != lastMonth then Some(month) else None;
      labels := labels + [monthLabel];
      lastMonth := Some(month);
    }
  }

  /**
   * A label stands for a run of weeks: every week up to the next label has
   * the month of the labelled week.
   */
  lemma {:induction false} LabelCoversFollowingWeeks(weeks: seq<seq<int>>, monthOf: int -> int, i: int, k: int)
    requires forall w :: 0 <= w < |weeks| ==> weeks[w] != []
    requires 0 <= i <= k < |weeks|
    requires forall j :: i < j <= k ==> !StartsMonth(weeks, monthOf, j)
    ensures monthOf(weeks[k][0]) == monthOf(weeks[i][0])
    decreases k - i
  {
    if i < k {
      LabelCoversFollowingWeeks(weeks, monthOf, i, k - 1);
      assert !StartsMonth(weeks, monthOf, k);
    }
  }
}
