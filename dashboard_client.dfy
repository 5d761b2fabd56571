/** The dashboard page's rules over the jobs of one terminal: the aggregate
    status of its card, the "ran on another day" warning, the live duration
    of a running job and the date cells of a job row. */
module DashboardClient {
  import opened Wrappers
  import opened Text
  import opened CommonClient

  /** One job row as the page receives it from the jobs endpoint. */
  datatype Job = Job(jobName: string, executionStatus: string, lastOutcome: string,
                     lastRunDate: Option<string>, lastDuration: Option<string>)

  /** The colour of a terminal's card: `warning`, `error` or `success`. */
  datatype Health = CardWarning | CardError | CardSuccess

  /** `jobs.some(p)` */
  predicate Any(jobs: seq<Job>, p: Job -> bool)
    ensures Any(jobs, p) <==> exists i :: 0 <= i < |jobs| && p(jobs[i])
  {
    if jobs == [] then false
    else p(jobs[0]) || (assert forall i :: 0 <= i < |jobs| - 1 ==> jobs[1..][i] == jobs[i + 1]; Any(jobs[1..], p))
  }

  /** `calcularEstadoGlobal`: a missing or empty list, or any running job,
      gives `warning`; otherwise any failed job gives `error`; otherwise
      `success`.  A running job therefore outweighs a failed one. */
  function GlobalStatus(jobs: Option<seq<Job>>): (r: Health)
    ensures r == CardWarning <==>
      jobs.None? || |jobs.value| == 0 ||
      exists i :: 0 <= i < |jobs.value| && jobs.value[i].executionStatus == "Running"
    ensures r == CardError <==>
      jobs.Some? &&
      (forall i :: 0 <= i < |jobs.value| ==> jobs.value[i].executionStatus != "Running") &&
      (exists i :: 0 <= i < |jobs.value| && jobs.value[i].lastOutcome == "Fallido")
  {
    if jobs.None? || |jobs.value| == 0 then CardWarning
    else if Any(jobs.value, (j: Job) => j.executionStatus == "Running") then CardWarning
    else if Any(jobs.value, (j: Job) => j.lastOutcome == "Fallido") then CardError
    else CardSuccess
  }

  /** `s.replace(/Z$/, '')` */
  function StripZ(s: string): (r: string)
    ensures |s| > 0 && s[|s| - 1] == 'Z' ==> r + "Z" == s
    ensures !(|s| > 0 && s[|s| - 1] == 'Z') ==> r == s
  {
    if |s| > 0 && s[|s| - 1] == 'Z' then s[..|s| - 1] else s
  }

  /** The text a row's date is parsed from: a terminal's dates are local
      wall-clock times sent with a spurious `Z`, so the `Z` is dropped. */
  function Adjusted(s: string, isServer: bool): string {
    if isServer then s else StripZ(s)
  }

  /** What `toDateString` compares: the local calendar day, or nothing for
      an Invalid Date (all Invalid Dates print alike). */
  function CalendarDay(d: Option<JsDate>): Option<(int, int, int)> {
    match d
    case None => None
    case Some(v) => Some((v.local.year, v.local.month, v.local.day))
  }

  /** `esFechaAntigua`: the job ran on another calendar day than the
      terminal's current time; never when either text is missing. */
  predicate IsStale(jobDate: Option<string>, serverTime: Option<string>, isServer: bool,
                    parse: string -> Option<JsDate>)
  {
    Present(jobDate) && Present(serverTime) &&
    CalendarDay(parse(Adjusted(jobDate.value, isServer))) != CalendarDay(parse(Adjusted(serverTime.value, isServer)))
  }

  /** A terminal's date compares the same with or without the trailing `Z`,
      and a date is never stale against itself. */
  lemma StaleIgnoresZ(j: string, t: Option<string>, parse: string -> Option<JsDate>)
    requires j != "" && j[|j| - 1] != 'Z'
    ensures IsStale(Some(j + "Z"), t, false, parse) == IsStale(Some(j), t, false, parse)
    ensures !IsStale(Some(j), Some(j), false, parse)
  {
    var jz := j + "Z";
    assert jz[|jz| - 1] == 'Z';
    assert jz[..|jz| - 1] == j;
  }

  /** The highlighting of a job row: a stale date, unless the job is running. */
  predicate RowWarning(job: Job, serverTime: Option<string>, isServer: bool, parse: string -> Option<JsDate>) {
    IsStale(job.lastRunDate, serverTime, isServer, parse) && job.executionStatus != "Running"
  }

  // -----------------------------------------------------------------------
  // Duration of a running job
  // -----------------------------------------------------------------------

  const STOPWATCH_OPEN := "<span class=\"text-primary fw-bold\"><i class=\"fa-solid fa-stopwatch me-1\"></i> "
  const STOPWATCH_CLOSE := "</span>"

  /** The running-time badge around a clock text. */
  function Stopwatch(clock: string): string {
    STOPWATCH_OPEN + clock + STOPWATCH_CLOSE
  }

  /** Whole seconds from `startMs` to `nowMs`, zero when the clock is behind
      the start. */
  function ElapsedSeconds(startMs: int, nowMs: int): (r: nat)
    ensures nowMs >= startMs ==> r * 1000 <= nowMs - startMs < r * 1000 + 1000
    ensures nowMs < startMs + 1000 ==> r == 0
  {
    var diff := nowMs - startMs;
    (if diff < 0 then 0 else diff) / 1000
  }

  /** Whole seconds as `HH:MM:SS`, hours not bounded. */
  function Clock(total: nat): string {
    Pad2(total / 3600) + ":" + Pad2(total % 3600 / 60) + ":" + Pad2(total % 60)
  }

  /** `calcularDuracion`: the stored duration (or `00:00:00`) for a job that
      is not running; `Calculando...` when a running job lacks a time;
      otherwise the elapsed time between the start and the terminal's clock,
      never negative, on a stopwatch badge.  An Invalid Date gives NaN in
      every field. */
  function RunningDuration(start: Option<string>, server: Option<string>, status: string,
                           lastDuration: Option<string>, isServer: bool,
                           parse: string -> Option<JsDate>): (r: string)
    ensures status != "Running" ==> r == if Present(lastDuration) then lastDuration.value else "00:00:00"
    ensures status == "Running" && !(Present(start) && Present(server)) ==> r == "Calculando..."
    ensures status == "Running" && Present(start) && Present(server) &&
            parse(Adjusted(start.value, isServer)).Some? && parse(Adjusted(server.value, isServer)).Some? ==>
      r == Stopwatch(Clock(ElapsedSeconds(parse(Adjusted(start.value, isServer)).value.ms,
                                          parse(Adjusted(server.value, isServer)).value.ms)))
    ensures status == "Running" && Present(start) && Present(server) &&
            (parse(Adjusted(start.value, isServer)).None? || parse(Adjusted(server.value, isServer)).None?) ==>
      r == Stopwatch("NaN:NaN:NaN")
  {
    if status != "Running" then
      if Present(lastDuration) then lastDuration.value else "00:00:00"
    else if !Present(start) || !Present(server) then "Calculando..."
    else
      var a := parse(Adjusted(start.value, isServer));
      var b := parse(Adjusted(server.value, isServer));
      if a.None? || b.None? then Stopwatch("NaN:NaN:NaN")
      else
        Stopwatch(Clock(ElapsedSeconds(a.value.ms, b.value.ms)))
  }

  /** A clock earlier than the start (or less than a second after it)
      shows zero elapsed time. */
  lemma NegativeElapsedIsZero(start: string, server: string, isServer: bool, parse: string -> Option<JsDate>)
    requires start != "" && server != ""
    requires parse(Adjusted(start, isServer)).Some? && parse(Adjusted(server, isServer)).Some?
    requires parse(Adjusted(server, isServer)).value.ms < parse(Adjusted(start, isServer)).value.ms + 1000
    ensures RunningDuration(Some(start), Some(server), "Running", None, isServer, parse) == Stopwatch(Clock(0))
  {
  }

  /** ... and the clock of zero seconds reads `00:00:00`. */
  lemma ClockZero()
    ensures Clock(0) == "00:00:00"
  {
    assert NatToString(0) == "0";
    assert Pad2(0) == "00";
  }

  /** Below 100 hours the clock reads back as the seconds it shows: two
      digits each, minutes and seconds below 60. */
  lemma ClockFields(total: nat)
    requires total < 360000
    ensures var c := Clock(total);
      |c| == 8 && c[2] == ':' && c[5] == ':' &&
      AllDigits(c[..2]) && AllDigits(c[3..5]) && AllDigits(c[6..]) &&
      DigitsValue(c[3..5]) < 60 && DigitsValue(c[6..]) < 60 &&
      DigitsValue(c[..2]) * 3600 + DigitsValue(c[3..5]) * 60 + DigitsValue(c[6..]) == total
  {
    var h := total / 3600;
    var m := total % 3600 / 60;
    var s := total % 60;
    assert h < 100 && m < 60;
    Pad2Digits(h);
    Pad2Digits(m);
    Pad2Digits(s);
    ClockLayout(Pad2(h), Pad2(m), Pad2(s));
    HoursMinutesSeconds(total);
  }

  /** Where the three fields sit in `hh:mm:ss`. */
  lemma ClockLayout(a: string, b: string, c: string)
    requires |a| == 2 && |b| == 2 && |c| == 2
    ensures var t := a + ":" + b + ":" + c;
      |t| == 8 && t[2] == ':' && t[5] == ':' && t[..2] == a && t[3..5] == b && t[6..] == c
  {
  }

  lemma HoursMinutesSeconds(total: nat)
    ensures (total / 3600) * 3600 + (total % 3600 / 60) * 60 + total % 60 == total
  {
    var h := total / 3600;
    var r := total % 3600;
    var m := r / 60;
    var s := r % 60;
    assert total == h * 3600 + r;
    assert r == m * 60 + s;
    assert total == (h * 60 + m) * 60 + s;
    DivModUnique(total, 60, h * 60 + m, s);
  }

  // -----------------------------------------------------------------------
  // Date cells of a job row
  // -----------------------------------------------------------------------

  /** The formatted date of a job: the local layout for a store server,
      the raw (UTC) one for a terminal. */
  function RowDate(job: Job, isServer: bool, parse: string -> Option<JsDate>): string {
    FormatDate(job.lastRunDate, isServer, parse)
  }

  /** The "last run" cell: the two halves of the layout around ` || `, or
      `||` when the job never ran. */
  function LastRunCell(job: Job, isServer: bool, parse: string -> Option<JsDate>): (r: string)
    ensures !Present(job.lastRunDate) ==> r == "||"
  {
    if !Present(job.lastRunDate) then "||"
    else
      var formatted := RowDate(job, isServer, parse);
      var parts := Split(formatted, ',');
      if |parts| >= 2 then Trim(parts[0]) + " || " + Trim(parts[1]) else formatted
  }

  /** For a valid date the cell shows the clock, then the calendar day. */
  lemma LastRunCellParts(job: Job, isServer: bool, parse: string -> Option<JsDate>)
    requires Present(job.lastRunDate) && parse(job.lastRunDate.value).Some?
    ensures var f := Fields(parse(job.lastRunDate.value).value, isServer);
      LastRunCell(job, isServer, parse) == TimePart(f) + " || " + DatePart(f)
  {
    var f := Fields(parse(job.lastRunDate.value).value, isServer);
    OneComma(f);
    PartsAreTrimmed(f);
  }

  /** The "start" cell as the page computes it: the SECOND comma-separated
      part of the layout of a running job's date, `-` otherwise. */
  function StartCellAsWritten(job: Job, isServer: bool, parse: string -> Option<JsDate>): (r: string)
    ensures !(job.executionStatus == "Running" && Present(job.lastRunDate)) ==> r == "-"
  {
    if job.executionStatus == "Running" && Present(job.lastRunDate) then
      var parts := Split(RowDate(job, isServer, parse), ',');
      if |parts| >= 2 then Trim(parts[1]) else "-"
    else "-"
  }

  /** The layout puts the clock first, so the "start" column of a running
      job shows its calendar date, never a time of day. */
  lemma StartCellShowsDate(job: Job, isServer: bool, parse: string -> Option<JsDate>)
    requires job.executionStatus == "Running" && Present(job.lastRunDate) && parse(job.lastRunDate.value).Some?
    ensures var f := Fields(parse(job.lastRunDate.value).value, isServer);
      StartCellAsWritten(job, isServer, parse) == DatePart(f) && ':' !in DatePart(f)
  {
    var f := Fields(parse(job.lastRunDate.value).value, isServer);
    OneComma(f);
    PartsAreTrimmed(f);
    NoColonInDate(f);
  }

  lemma NoColonInDate(f: DateFields)
    ensures ':' !in DatePart(f)
  {
    TwoText(f.day);
    TwoText(f.month + 1);
    NumberText(f.year);
    NoColon(Two(f.day), Two(f.month + 1), IntToString(f.year));
  }

  lemma NoColon(a: string, b: string, c: string)
    requires NumberLike(a) && NumberLike(b) && NumberLike(c)
    ensures ':' !in Fields3(a, b, c, '/')
  {
    var s := Fields3(a, b, c, '/');
    forall i | 0 <= i < |s|
      ensures s[i] != ':'
    {
      if i < |a| {
        assert s[i] == a[i];
      } else if i == |a| {
      } else if i <= |a| + |b| {
        assert s[i] == b[i - |a| - 1];
      } else if i == |a| + |b| + 1 {
      } else {
        assert s[i] == c[i - |a| - |b| - 2];
      }
    }
  }

  /** The "start" cell as intended: the clock part of a running job's date. */
  function StartCell(job: Job, isServer: bool, parse: string -> Option<JsDate>): (r: string)
    ensures !(job.executionStatus == "Running" && Present(job.lastRunDate)) ==> r == "-"
  {
    if job.executionStatus == "Running" && Present(job.lastRunDate) then
      var parts := Split(RowDate(job, isServer, parse), ',');
      if |parts| >= 2 then Trim(parts[0]) else "-"
    else "-"
  }

  /** With the clock part taken, a running job's start cell shows the time
      of day it started. */
  lemma StartCellShowsClock(job: Job, isServer: bool, parse: string -> Option<JsDate>)
    requires job.executionStatus == "Running" && Present(job.lastRunDate) && parse(job.lastRunDate.value).Some?
    ensures StartCell(job, isServer, parse) == TimePart(Fields(parse(job.lastRunDate.value).value, isServer))
  {
    var f := Fields(parse(job.lastRunDate.value).value, isServer);
    OneComma(f);
    PartsAreTrimmed(f);
  }

  /** The cells of a job row that carry rules. */
  datatype RowView = RowView(warning: bool, lastRun: string, duration: string, start: string)

  /** `crearFilaJob` without its markup, as written: the start cell is
      StartCellAsWritten. */
  function JobRowView(job: Job, serverTime: Option<string>, isServer: bool, parse: string -> Option<JsDate>): (v: RowView)
    ensures v.warning <==> IsStale(job.lastRunDate, serverTime, isServer, parse) && job.executionStatus != "Running"
    ensures v.lastRun == LastRunCell(job, isServer, parse)
    ensures v.duration == RunningDuration(job.lastRunDate, serverTime, job.executionStatus, job.lastDuration, isServer, parse)
    ensures v.start == StartCellAsWritten(job, isServer, parse)
  {
    RowView(RowWarning(job, serverTime, isServer, parse),
            LastRunCell(job, isServer, parse),
            RunningDuration(job.lastRunDate, serverTime, job.executionStatus, job.lastDuration, isServer, parse),
            StartCellAsWritten(job, isServer, parse))
  }

  /** The same row with the corrected start cell. */
  function JobRowViewIntended(job: Job, serverTime: Option<string>, isServer: bool, parse: string -> Option<JsDate>): (v: RowView)
    ensures v == JobRowView(job, serverTime, isServer, parse).(start := StartCell(job, isServer, parse))
  {
    JobRowView(job, serverTime, isServer, parse).(start := StartCell(job, isServer, parse))
  }

  /** The row of a running job with a valid date, as written and corrected:
      the last-run cell shows the clock and then the calendar day, the
      written start cell repeats the calendar day, the corrected one shows
      the clock, and neither row is highlighted. */
  lemma RunningJobRow(job: Job, serverTime: Option<string>, isServer: bool, parse: string -> Option<JsDate>)
    requires job.executionStatus == "Running" && Present(job.lastRunDate) && parse(job.lastRunDate.value).Some?
    ensures var f := Fields(parse(job.lastRunDate.value).value, isServer);
      var v := JobRowView(job, serverTime, isServer, parse);
      v.lastRun == TimePart(f) + " || " + DatePart(f) && v.start == DatePart(f) && !v.warning
    ensures var f := Fields(parse(job.lastRunDate.value).value, isServer);
      var w := JobRowViewIntended(job, serverTime, isServer, parse);
      w.start == TimePart(f) && !w.warning
  {
    LastRunCellParts(job, isServer, parse);
    StartCellShowsDate(job, isServer, parse);
    StartCellShowsClock(job, isServer, parse);
  }
}
