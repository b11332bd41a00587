/** The state of `TimeTrackerApp` in Time_Tracker_v1_2.py: a timer for one
    named task at a time, and today's total seconds per task.

    The clock is a parameter: `now` is `datetime.now()` in microseconds. The
    window, its widgets and the workbook are not modelled; the sheet
    `load_daily_data` reads is given as its rows. */
module TimeTracker {
  import opened Common

  /** A cell as openpyxl returns it. Booleans count as numbers, as
      `isinstance(True, int)` holds in Python. */
  datatype Cell = Blank | Text(text: string) | Number(value: real) | Flag(flag: bool)

  /** What `load_daily_data` finds: no file, a file that cannot be read, a
      file without today's sheet, or the (name, duration) cells of rows 2 on. */
  datatype SheetRead = NoFile | Unreadable | NoSheet | Sheet(rows: seq<(Cell, Cell)>)

  const SummaryLabels: seq<string> := ["Total Seconds", "Total Minutes", "Total Hours", "Net Hours (after 1hr lunch)"]

  /** `int(x)`: truncation toward zero. */
  function TruncReal(x: real): int {
    if x >= 0.0 then x.Floor else -((-x).Floor)
  }

  /** `int(timedelta.total_seconds())` for a difference in microseconds:
      truncation toward zero, also for a clock that went back. */
  function ElapsedSeconds(micros: int): (r: int)
    ensures micros >= 0 ==> 0 <= r && r * 1_000_000 <= micros < (r + 1) * 1_000_000
    ensures micros < 0 ==> r <= 0 && (r - 1) * 1_000_000 < micros <= r * 1_000_000
  {
    if micros >= 0 then micros / 1_000_000 else -((-micros) / 1_000_000)
  }

  /** The duration a row contributes, when it counts: a text name that is
      not a summary label, and a numeric duration. */
  function RowSeconds(row: (Cell, Cell)): Option<(string, int)> {
    match row
    case (Text(name), Number(x)) =>
      if name != [] && name !in SummaryLabels then Some((name, TruncReal(x))) else None
    case (Text(name), Flag(b)) =>
      if name != [] && name !in SummaryLabels then Some((name, if b then 1 else 0)) else None
    case _ => None
  }

  /** `divmod(total, 3600)` and then `divmod(remainder, 60)`: Python floors,
      which is what Dafny's `/` and `%` do for a positive divisor. */
  function Hms(total: int): (r: (int, int, int))
    ensures r.0 * 3600 + r.1 * 60 + r.2 == total
    ensures 0 <= r.1 < 60 && 0 <= r.2 < 60
  {
    (total / 3600, total % 3600 / 60, total % 3600 % 60)
  }

  /** The h/m/s split is the only one with minutes and seconds below 60. */
  lemma HmsUnique(total: int, h: int, m: int, s: int)
    requires h * 3600 + m * 60 + s == total && 0 <= m < 60 && 0 <= s < 60
    ensures Hms(total) == (h, m, s)
  {
    var (h', m', s') := Hms(total);
    assert (h - h') * 3600 == (m' * 60 + s') - (m * 60 + s);
    assert -3600 < (h - h') * 3600 < 3600;
    assert h == h';
    assert (m - m') * 60 == s' - s;
    assert -60 < (m - m') * 60 < 60;
  }

  /** One line of the totals box: `"<task>: <hh>h <mm>m <ss>s\n"`. */
  function TotalLine(task: string, seconds: int): string {
    var (h, m, s) := Hms(seconds);
    task + ": " + Pad2(h) + "h " + Pad2(m) + "m " + Pad2(s) + "s\n"
  }

  /** `time_string` of the running timer: `"<hh>:<mm>:<ss>"`. */
  function TimerText(seconds: int): string {
    var (h, m, s) := Hms(seconds);
    Pad2(h) + ":" + Pad2(m) + ":" + Pad2(s)
  }

  /** The lines of the totals box for the tasks of `order`, in that order. */
  function TotalLines(order: seq<string>, totals: map<string, int>): string
    requires forall i :: 0 <= i < |order| ==> order[i] in totals
  {
    if order == [] then [] else TotalLine(order[0], totals[order[0]]) + TotalLines(order[1..], totals)
  }

  datatype Warning = InputError | TimerRunning | NoTimer

  /** `d[k] = d.get(k, 0) + n` on a dictionary held as its keys in insertion
      order and the map. */
  function AddTo(order: seq<string>, totals: map<string, int>, k: string, n: int): (r: (seq<string>, map<string, int>))
    ensures r.1 == totals[k := (if k in totals then totals[k] else 0) + n]
    ensures r.0 == (if k in order then order else order + [k])
  {
    (if k in order then order else order + [k], totals[k := (if k in totals then totals[k] else 0) + n])
  }

  /** What the loop of `load_daily_data` leaves: the totals of `rows`. */
  function LoadRows(rows: seq<(Cell, Cell)>): (r: (seq<string>, map<string, int>)) {
    if rows == [] then ([], map[])
    else
      var before := LoadRows(rows[..|rows| - 1]);
      match RowSeconds(rows[|rows| - 1])
      case None => before
      case Some(p) => AddTo(before.0, before.1, p.0, p.1)
  }

  /** The total of one task: the sum of its counted rows. */
  function SumFor(rows: seq<(Cell, Cell)>, task: string): int {
    if rows == [] then 0
    else
      var here := RowSeconds(rows[|rows| - 1]);
      SumFor(rows[..|rows| - 1], task) + (if here.Some? && here.value.0 == task then here.value.1 else 0)
  }

  /** Summary rows never become tasks, every loaded task appears once in
      insertion order, and each total is the sum of that task's rows. */
  lemma {:induction false} LoadRowsSums(rows: seq<(Cell, Cell)>)
    ensures var (order, totals) := LoadRows(rows);
      (forall k :: k in totals <==> k in order)
      && (forall i, j :: 0 <= i < j < |order| ==> order[i] != order[j])
      && (forall k :: k in totals ==> k != [] && k !in SummaryLabels && totals[k] == SumFor(rows, k))
      && (forall k :: k !in totals ==> SumFor(rows, k) == 0)
    decreases |rows|
  {
    if rows != [] {
      LoadRowsSums(rows[..|rows| - 1]);
    }
  }

  class TimeTrackerApp {
    var timerRunning: bool
    var startTime: Option<int>
    var currentTask: string
    /** The keys of `total_times` in insertion order, and its values. */
    var order: seq<string>
    var totalTimes: map<string, int>
    var elapsedSeconds: int

    /** `total_times` is one dictionary, and a running timer has a task and a start. */
    ghost predicate Valid()
      reads this
    {
      (forall k :: k in totalTimes <==> k in order)
      && (forall i, j :: 0 <= i < j < |order| ==> order[i] != order[j])
      && (timerRunning ==> currentTask != [] && startTime.Some?)
    }

    /** `__init__`: an idle timer, then `load_daily_data`. */
    constructor(sheet: SheetRead)
      ensures Valid() && !timerRunning && startTime.None? && currentTask == [] && elapsedSeconds == 0
      ensures sheet.Sheet? ==> (order, totalTimes) == LoadRows(sheet.rows)
      ensures !sheet.Sheet? ==> order == [] && totalTimes == map[]
    {
      timerRunning := false;
      startTime := None;
      currentTask := [];
      elapsedSeconds := 0;
      order, totalTimes := [], map[];
      new;
      LoadDailyData(sheet);
    }

    /** `load_daily_data`: the totals are reset, then summed from today's sheet
        when there is one. */
    method LoadDailyData(sheet: SheetRead)
      requires Valid()
      modifies this
      ensures Valid()
      ensures timerRunning == old(timerRunning) && startTime == old(startTime)
      ensures currentTask == old(currentTask) && elapsedSeconds == old(elapsedSeconds)
      ensures sheet.Sheet? ==> (order, totalTimes) == LoadRows(sheet.rows)
      ensures !sheet.Sheet? ==> order == [] && totalTimes == map[]
    {
      order, totalTimes := [], map[];
      if sheet.Sheet? {
        var rows := sheet.rows;
        var i := 0;
        while i < |rows|
          invariant 0 <= i <= |rows|
          invariant (order, totalTimes) == LoadRows(rows[..i])
          invariant timerRunning == old(timerRunning) && startTime == old(startTime)
          invariant currentTask == old(currentTask) && elapsedSeconds == old(elapsedSeconds)
          decreases |rows| - i
        {
          assert rows[..i + 1][..i] == rows[..i];
          LoadRowsSums(rows[..i]);
          var counted := RowSeconds(rows[i]);
          if counted.Some? {
            var (task, seconds) := counted.value;
            var added := AddTo(order, totalTimes, task, seconds);
            order, totalTimes := added.0, added.1;
          }
          i := i + 1;
        }
        assert rows[..i] == rows;
        LoadRowsSums(rows);
      }
    }

    /** `start_timer`: an empty task name or a running timer only warns;
        otherwise the timer starts for the stripped name at zero seconds. */
    method StartTimer(entry: string, now: int) returns (w: Option<Warning>)
      requires Valid()
      modifies this
      ensures Valid()
      ensures order == old(order) && totalTimes == old(totalTimes)
      ensures Strip(entry) == [] ==> w == Some(InputError) && unchanged(this)
      ensures Strip(entry) != [] && old(timerRunning) ==> w == Some(TimerRunning) && unchanged(this)
      ensures Strip(entry) != [] && !old(timerRunning) ==>
        w.None? && timerRunning && currentTask == Strip(entry) && startTime == Some(now) && elapsedSeconds == 0
    {
      var taskName := Strip(entry);
      if taskName == [] {
        return Some(InputError);
      }
      if timerRunning {
        return Some(TimerRunning);
      }
      currentTask := taskName;
      startTime := Some(now);
      timerRunning := true;
      elapsedSeconds := 0;
      var _ := UpdateTimerDisplay(now);
      w := None;
    }

    /** One run of `update_timer_display`: while the timer runs, the elapsed
        seconds and their `hh:mm:ss` text. */
    method UpdateTimerDisplay(now: int) returns (text: Option<string>)
      requires Valid()
      modifies this
      ensures Valid()
      ensures timerRunning == old(timerRunning) && startTime == old(startTime) && currentTask == old(currentTask)
      ensures order == old(order) && totalTimes == old(totalTimes)
      ensures !timerRunning ==> text.None? && elapsedSeconds == old(elapsedSeconds)
      ensures timerRunning ==>
        elapsedSeconds == ElapsedSeconds(now - startTime.value) && text == Some(TimerText(elapsedSeconds))
    {
      if !timerRunning {
        return None;
      }
      elapsedSeconds := ElapsedSeconds(now - startTime.value);
      text := Some(TimerText(elapsedSeconds));
    }

    /** `stop_timer`: without a running timer it only warns; otherwise the
        whole seconds since the start are added to the current task's total
        alone, and the timer goes idle with no task and zero seconds. */
    method StopTimer(now: int) returns (w: Option<Warning>)
      requires Valid()
      modifies this
      ensures Valid()
      ensures !old(timerRunning) ==> w == Some(NoTimer) && unchanged(this)
      ensures old(timerRunning) ==>
        var task, n := old(currentTask), ElapsedSeconds(now - old(startTime).value);
        w.None? && !timerRunning && currentTask == [] && elapsedSeconds == 0 && startTime == old(startTime)
        && totalTimes == old(totalTimes)[task := (if task in old(totalTimes) then old(totalTimes)[task] else 0) + n]
        && order == (if task in old(order) then old(order) else old(order) + [task])
    {
      if !timerRunning {
        return Some(NoTimer);
      }
      var elapsed := ElapsedSeconds(now - startTime.value);
      timerRunning := false;
      var added := AddTo(order, totalTimes, currentTask, elapsed);
      order, totalTimes := added.0, added.1;
      currentTask := [];
      elapsedSeconds := 0;
      w := None;
    }

    /** The totals box: a line per task in insertion order, or a notice. */
    function TotalsDisplay(): string
      reads this
      requires Valid()
    {
      if totalTimes == map[] then "No tasks tracked today."
      else
        assert forall i :: 0 <= i < |order| ==> order[i] in order;
        TotalLines(order, totalTimes)
    }
  }

  /** Stopping changes the stopped task's total only, by the seconds it ran. */
  lemma StopTouchesOneTask(totals: map<string, int>, order: seq<string>, task: string, n: int, other: string)
    requires other != task
    ensures AddTo(order, totals, task, n).1[task] == (if task in totals then totals[task] else 0) + n
    ensures other in totals <==> other in AddTo(order, totals, task, n).1
    ensures other in totals ==> AddTo(order, totals, task, n).1[other] == totals[other]
  {
  }
}
