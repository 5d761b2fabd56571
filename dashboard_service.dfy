/** The dashboard back end: the terminal list for the sidebar and the SQL
    Server Agent job list of one terminal, decoded from the agent's integer
    codes and packed dates. */
module DashboardService {
  import opened Wrappers
  import opened Text
  import opened Js
  import opened Entities
  import opened SqlQuery

  /** One row of `msdb.dbo.sp_help_job`. */
  datatype AgentJob = AgentJob(
    jobId: string,
    name: string,
    enabled: int,
    currentExecutionStatus: int,
    lastRunOutcome: int,
    lastRunDate: int,   // yyyymmdd
    lastRunTime: int)   // HHMMSS

  /** One row of `msdb.dbo.sp_help_jobhistory`, newest first. */
  datatype HistoryRecord = HistoryRecord(message: string, runDuration: int)

  /** The history lookup of one job; a job the server has no entry for has
      an empty history. */
  function HistoryOf(histories: map<string, Result<seq<HistoryRecord>>>, jobId: string): Result<seq<HistoryRecord>> {
    if jobId in histories then histories[jobId] else Success([])
  }

  /** The arguments handed to `new Date(year, month, day, h, m, s)`, a Date
      built from NaN (`InvalidDate`), or `null` (`NoDate`). */
  datatype RunDate =
    | NoDate
    | InvalidDate
    | LocalDate(year: int, month: int, day: int, hour: int, minute: int, second: int)

  /** One job as sent to the page. */
  datatype JobRow = JobRow(
    jobName: string,
    executionStatus: string,
    lastOutcome: string,
    lastDuration: Option<string>,
    lastRunDate: RunDate,
    lastMessage: Option<string>)

  datatype TerminalJobs = TerminalJobs(jobs: seq<JobRow>, terminalTime: string)

  /** What the terminal's SQL Server answers to each request the service
      makes; a `Failure` carries the driver's error message. */
  datatype AgentServer = AgentServer(
    connectError: Option<string>,
    currentTime: Result<string>,
    helpJob: Result<seq<AgentJob>>,
    jobHistory: map<string, Result<seq<HistoryRecord>>>,
    fullQuery: Result<seq<JobRow>>,
    safeQuery: Result<seq<JobRow>>)

  /** The life of the connection pool of one request. */
  datatype Pool = NotOpened | Open | Closed

  const PURGE_JOB: string := "syspolicy_purge_history"

  predicate Listed(j: AgentJob) {
    j.enabled == 1 && j.name != PURGE_JOB
  }

  /** The jobs shown for a store server, in the order the agent lists them. */
  function EnabledJobs(all: seq<AgentJob>): (r: seq<AgentJob>)
    ensures forall j :: j in r <==> j in all && Listed(j)
    ensures forall i :: 0 <= i < |r| ==> Listed(r[i])
    ensures |r| <= |all|
  {
    if all == [] then []
    else if Listed(all[0]) then [all[0]] + EnabledJobs(all[1..])
    else EnabledJobs(all[1..])
  }

  function ExecutionStatus(code: int): (s: string)
    ensures s == "Running" <==> code == 1
    ensures s != "Running" ==> s == "Idle"
  {
    if code == 1 then "Running" else "Idle"
  }

  /** The outcome label; every code has one. */
  function Outcome(code: int): (s: string)
    ensures s == "Exitoso" <==> code == 1
    ensures s == "Fallido" <==> code == 0
    ensures s == "Cancelado" <==> code == 3
    ensures s == "Desconocido" <==> code != 0 && code != 1 && code != 3
  {
    if code == 1 then "Exitoso"
    else if code == 0 then "Fallido"
    else if code == 3 then "Cancelado"
    else "Desconocido"
  }

  /** A run duration packed as the integer HHMMSS, shown as `HH:MM:SS`. */
  function FormatRunDuration(d: int): (s: string)
    ensures d <= 0 ==> s == "00:00:00"
  {
    if d > 0 then
      var durStr := PadStart(IntToString(d), 6, '0');
      Substring(durStr, 0, 2) + ":" + Substring(durStr, 2, 4) + ":" + Substring(durStr, 4, 6)
    else "00:00:00"
  }

  /** Below 100 hours the six digits split into hours, minutes and seconds. */
  lemma DurationFields(d: int)
    requires 0 <= d < 1000000
    ensures FormatRunDuration(d) == Pad2(d / 10000) + ":" + Pad2(d / 100 % 100) + ":" + Pad2(d % 100)
  {
    if d == 0 {
      assert Pad2(0) == "00";
    } else {
      var s := PadStart(NatToString(d), 6, '0');
      DurationDigits(d, s);
      DurationText(d, s);
    }
  }

  lemma DurationDigits(d: nat, s: string)
    requires 0 < d < 1000000 && s == PadStart(NatToString(d), 6, '0')
    ensures |s| == 6
    ensures s[0..2] == Pad2(d / 10000) && s[2..4] == Pad2(d / 100 % 100) && s[4..6] == Pad2(d % 100)
  {
    assert Pow10(6) == 1000000;
    FixedWidth(d, 6);
    SixDigitFields(s, d);
  }

  lemma DurationText(d: int, s: string)
    requires d > 0 && s == PadStart(NatToString(d), 6, '0') && |s| == 6
    ensures FormatRunDuration(d) == s[0..2] + ":" + s[2..4] + ":" + s[4..6]
  {
    assert IntToString(d) == NatToString(d);
  }

  /** The three two-digit fields of a six-digit string of value n. */
  lemma SixDigitFields(s: string, n: nat)
    requires |s| == 6 && AllDigits(s) && DigitsValue(s) == n
    ensures s[0..2] == Pad2(n / 10000) && s[2..4] == Pad2(n / 100 % 100) && s[4..6] == Pad2(n % 100)
  {
    DigitsBound(s);
    assert Pow10(6) == 1000000;
    HighField(s, n);
    TwoDigitField(s, 2, n / 100 % 100);
    TwoDigitField(s, 4, n % 100);
  }

  lemma HighField(s: string, n: nat)
    requires |s| == 6 && AllDigits(s) && DigitsValue(s) == n && n < 1000000
    ensures s[0..2] == Pad2(n / 10000)
  {
    assert Pow10(4) == 10000;
    assert n / 10000 < 100;
    assert (n / 10000) % 100 == n / 10000;
    TwoDigitField(s, 0, n / 10000);
  }

  /** The two digits at position i of a digit string, when their value is v,
      are `Pad2(v)`. */
  lemma TwoDigitField(s: string, i: nat, v: nat)
    requires AllDigits(s) && i + 2 <= |s| && v < 100
    requires v == (DigitsValue(s) / Pow10(|s| - (i + 2))) % 100
    ensures s[i..i + 2] == Pad2(v)
  {
    assert Pow10(2) == 100;
    DigitsSlice(s, i, i + 2);
    Pad2Digits(v);
    DigitsInjective(s[i..i + 2], Pad2(v));
  }

  lemma DigitsBound(s: string)
    requires AllDigits(s)
    ensures DigitsValue(s) < Pow10(|s|)
  {
    DigitsValueBound(s);
  }

  /** The `lastRunDate` of a job: null unless the packed date is positive,
      otherwise the Date built from its digits and the zero-padded time. */
  function DecodeRunDate(date: int, time: int): (r: RunDate)
    ensures r == NoDate <==> date <= 0
  {
    if date > 0 then DateFromText(IntToString(date), PadStart(IntToString(time), 6, '0'))
    else NoDate
  }

  /** The Date read from the `yyyymmdd` and `hhmmss` texts, field by field
      with `parseInt`; a NaN field makes an invalid Date. */
  function DateFromText(dStr: string, tStr: string): (r: RunDate)
    ensures r != NoDate
  {
    var year := ParseInt(Substring(dStr, 0, 4));
    var month := ParseInt(Substring(dStr, 4, 6));
    var day := ParseInt(Substring(dStr, 6, 8));
    var hour := ParseInt(Substring(tStr, 0, 2));
    var minute := ParseInt(Substring(tStr, 2, 4));
    var second := ParseInt(Substring(tStr, 4, 6));
    if year.None? || month.None? || day.None? || hour.None? || minute.None? || second.None? then InvalidDate
    else LocalDate(year.value, month.value - 1, day.value, hour.value, minute.value, second.value)
  }

  /** An eight-digit date and a time below 24:00:00 give the calendar fields,
      with the month counted from 0 as the JS Date constructor expects. */
  lemma PackedDateFields(date: int, time: int)
    requires 10000000 <= date < 100000000 && 0 <= time < 1000000
    ensures DecodeRunDate(date, time) ==
      LocalDate(date / 10000, date / 100 % 100 - 1, date % 100, time / 10000, time / 100 % 100, time % 100)
  {
    var dStr := IntToString(date);
    var tStr := PadStart(IntToString(time), 6, '0');
    DateDigits(date);
    TimeDigits(time);
    FieldsDate(dStr, tStr, date / 10000, date / 100 % 100, date % 100, time / 10000, time / 100 % 100, time % 100);
  }

  lemma FieldsDate(dStr: string, tStr: string, year: int, month: int, day: int, hour: int, minute: int, second: int)
    requires ParseInt(Substring(dStr, 0, 4)) == Some(year)
    requires ParseInt(Substring(dStr, 4, 6)) == Some(month)
    requires ParseInt(Substring(dStr, 6, 8)) == Some(day)
    requires ParseInt(Substring(tStr, 0, 2)) == Some(hour)
    requires ParseInt(Substring(tStr, 2, 4)) == Some(minute)
    requires ParseInt(Substring(tStr, 4, 6)) == Some(second)
    ensures DateFromText(dStr, tStr) == LocalDate(year, month - 1, day, hour, minute, second)
  {
  }

  lemma DateDigits(date: int)
    requires 10000000 <= date < 100000000
    ensures var dStr := IntToString(date);
      ParseInt(Substring(dStr, 0, 4)) == Some(date / 10000) &&
      ParseInt(Substring(dStr, 4, 6)) == Some(date / 100 % 100) &&
      ParseInt(Substring(dStr, 6, 8)) == Some(date % 100)
  {
    var dStr := IntToString(date);
    EightDigits(date);
    ParseField(dStr, 0, 4, 10000, 10000);
    LeadingField(date, 10000, 10000);
    ParseField(dStr, 4, 6, 100, 100);
    ParseField(dStr, 6, 8, 1, 100);
  }

  lemma EightDigits(date: int)
    requires 10000000 <= date < 100000000
    ensures |IntToString(date)| == 8 && AllDigits(IntToString(date))
    ensures DigitsValue(IntToString(date)) == date
  {
    assert Pow10(7) == 10000000 && Pow10(8) == 100000000;
    PrintedWidth(date, 8);
    NatToStringRoundTrip(date);
  }

  lemma TimeDigits(time: int)
    requires 0 <= time < 1000000
    ensures var tStr := PadStart(IntToString(time), 6, '0');
      ParseInt(Substring(tStr, 0, 2)) == Some(time / 10000) &&
      ParseInt(Substring(tStr, 2, 4)) == Some(time / 100 % 100) &&
      ParseInt(Substring(tStr, 4, 6)) == Some(time % 100)
  {
    var tStr := PadStart(IntToString(time), 6, '0');
    SixDigits(time);
    assert Pow10(4) == 10000 && Pow10(2) == 100 && Pow10(0) == 1;
    ParseField(tStr, 0, 2, 10000, 100);
    LeadingField(time, 10000, 100);
    ParseField(tStr, 2, 4, 100, 100);
    ParseField(tStr, 4, 6, 1, 100);
  }

  lemma SixDigits(n: int)
    requires 0 <= n < 1000000
    ensures |PadStart(IntToString(n), 6, '0')| == 6 && AllDigits(PadStart(IntToString(n), 6, '0'))
    ensures DigitsValue(PadStart(IntToString(n), 6, '0')) == n
  {
    assert Pow10(6) == 1000000;
    FixedWidth(n, 6);
  }

  /** What one history lookup contributes: the newest record's message and
      duration, or `''` and `00:00:00` when there is none or the lookup
      failed. */
  function LastMessage(history: Result<seq<HistoryRecord>>): string {
    if history.Success? && |history.value| > 0 then history.value[0].message else ""
  }

  function LastDuration(history: Result<seq<HistoryRecord>>): string {
    if history.Success? && |history.value| > 0 then FormatRunDuration(history.value[0].runDuration)
    else "00:00:00"
  }

  /** The row of one job of a store server. */
  function ServerJobRow(job: AgentJob, history: Result<seq<HistoryRecord>>): JobRow {
    JobRow(job.name, ExecutionStatus(job.currentExecutionStatus), Outcome(job.lastRunOutcome),
           Some(LastDuration(history)), DecodeRunDate(job.lastRunDate, job.lastRunTime),
           Some(LastMessage(history)))
  }

  /** The `try` block around `sp_help_jobhistory`: a failed lookup is
      swallowed and leaves the defaults. */
  method ReadHistory(historyResult: Result<seq<HistoryRecord>>)
    returns (lastMessage: string, durationFormatted: string)
    ensures lastMessage == LastMessage(historyResult)
    ensures durationFormatted == LastDuration(historyResult)
    ensures historyResult.Failure? || historyResult.value == [] ==>
      lastMessage == "" && durationFormatted == "00:00:00"
  {
    lastMessage := "";
    durationFormatted := "00:00:00";
    if historyResult.Success? && |historyResult.value| > 0 {
      var lastHistory := historyResult.value[0];
      lastMessage := lastHistory.message;
      if lastHistory.runDuration > 0 {
        durationFormatted := FormatRunDuration(lastHistory.runDuration);
      }
    }
  }

  /** The body of the loop over the enabled jobs: the fields of one row. */
  method MapJob(job: AgentJob, historyResult: Result<seq<HistoryRecord>>) returns (row: JobRow)
    ensures row == ServerJobRow(job, historyResult)
  {
    var lastMessage, durationFormatted := ReadHistory(historyResult);
    var executionStatus := "Idle";
    if job.currentExecutionStatus == 1 {
      executionStatus := "Running";
    }
    var lastOutcome := "Desconocido";
    if job.lastRunOutcome == 1 {
      lastOutcome := "Exitoso";
    } else if job.lastRunOutcome == 0 {
      lastOutcome := "Fallido";
    } else if job.lastRunOutcome == 3 {
      lastOutcome := "Cancelado";
    }
    var lastRunDate := DecodeRunDate(job.lastRunDate, job.lastRunTime);
    row := JobRow(job.name, executionStatus, lastOutcome, Some(durationFormatted), lastRunDate, Some(lastMessage));
  }

  /** `f` applied to each element, in order. */
  function MapRows<A, B>(xs: seq<A>, f: A -> B): (r: seq<B>)
    ensures |r| == |xs|
  {
    if xs == [] then [] else MapRows(xs[..|xs| - 1], f) + [f(xs[|xs| - 1])]
  }

  /** Element i of the mapped sequence is `f` of element i. */
  lemma {:induction false} MapRowsAt<A, B>(xs: seq<A>, f: A -> B)
    ensures forall i :: 0 <= i < |xs| ==> MapRows(xs, f)[i] == f(xs[i])
    decreases |xs|
  {
    if xs != [] {
      var init := xs[..|xs| - 1];
      MapRowsAt(init, f);
      forall i | 0 <= i < |init|
        ensures MapRows(xs, f)[i] == f(xs[i])
      {
        assert xs[i] == init[i];
      }
    }
  }

  lemma MapRowsSnoc<A, B>(xs: seq<A>, f: A -> B, i: int)
    requires 0 <= i < |xs|
    ensures MapRows(xs[..i + 1], f) == MapRows(xs[..i], f) + [f(xs[i])]
  {
    assert xs[..i + 1][..i] == xs[..i];
  }

  /** The row of a job, looked up with its own history. */
  function RowWith(history: map<string, Result<seq<HistoryRecord>>>): AgentJob -> JobRow {
    (job: AgentJob) => ServerJobRow(job, HistoryOf(history, job.jobId))
  }

  /** The rows of the jobs of a store server, one per job, in order. */
  function ServerRows(jobs: seq<AgentJob>, history: map<string, Result<seq<HistoryRecord>>>): (rows: seq<JobRow>)
    ensures |rows| == |jobs|
  {
    MapRows(jobs, RowWith(history))
  }

  /** Row i is the row of job i, with that job's own history. */
  lemma ServerRowsAt(jobs: seq<AgentJob>, history: map<string, Result<seq<HistoryRecord>>>)
    ensures forall i :: 0 <= i < |jobs| ==> ServerRows(jobs, history)[i] == ServerJobRow(jobs[i], HistoryOf(history, jobs[i].jobId))
  {
    MapRowsAt(jobs, RowWith(history));
  }

  /** The loop over the enabled jobs of a store server. */
  method MapServerJobs(jobs: seq<AgentJob>, history: map<string, Result<seq<HistoryRecord>>>)
    returns (mapped: seq<JobRow>)
    ensures mapped == ServerRows(jobs, history)
  {
    mapped := [];
    var i := 0;
    while i < |jobs|
      invariant 0 <= i <= |jobs|
      invariant mapped == MapRows(jobs[..i], RowWith(history))
    {
      var job := jobs[i];
      var row := MapJob(job, HistoryOf(history, job.jobId));
      MapRowsSnoc(jobs, RowWith(history), i);
      mapped := mapped + [row];
      i := i + 1;
    }
    assert jobs[..i] == jobs;
  }

  /** The error messages that send a POS terminal to the reduced query. */
  predicate IsPrivilegeError(message: string) {
    message != "" && (Includes(message, "permission was denied") || Includes(message, "sysjobhistory"))
  }

  /** `getTerminalJobs`.  `pool` records whether a connection was opened and
      whether it was closed again. */
  method GetTerminalJobs(terminalId: int, terminals: map<int, Terminal>, server: AgentServer)
    returns (r: Result<TerminalJobs>, pool: Pool)
    ensures pool != Open
    ensures terminalId !in terminals ==> r == Failure("Terminal no encontrada") && pool == NotOpened
    ensures terminalId in terminals ==> (pool == Closed <==> server.connectError.None?)
    ensures pool == NotOpened ==> r.Failure?
    ensures terminalId in terminals && server.connectError.Some? ==> r == Failure(server.connectError.value)
    ensures pool == Closed && server.currentTime.Failure? ==> r == Failure(server.currentTime.error)
    ensures r.Success? ==> server.currentTime.Success? && r.value.terminalTime == server.currentTime.value
    // a store server: the enabled jobs, each with its history
    ensures pool == Closed && server.currentTime.Success? && terminals[terminalId].isServer ==>
      (server.helpJob.Failure? ==> r == Failure(server.helpJob.error)) &&
      (server.helpJob.Success? ==>
        r == Success(TerminalJobs(ServerRows(EnabledJobs(server.helpJob.value), server.jobHistory), server.currentTime.value)))
    // a POS terminal: the full query, or the safe one after a privilege error
    ensures pool == Closed && server.currentTime.Success? && !terminals[terminalId].isServer ==>
      (server.fullQuery.Success? ==> r == Success(TerminalJobs(server.fullQuery.value, server.currentTime.value))) &&
      (server.fullQuery.Failure? && !IsPrivilegeError(server.fullQuery.error) ==> r == Failure(server.fullQuery.error)) &&
      (server.fullQuery.Failure? && IsPrivilegeError(server.fullQuery.error) ==>
        r == if server.safeQuery.Success? then Success(TerminalJobs(server.safeQuery.value, server.currentTime.value))
             else Failure(server.safeQuery.error))
  {
    pool := NotOpened;
    if terminalId !in terminals {
      return Failure("Terminal no encontrada"), pool;
    }
    var terminal := terminals[terminalId];
    if server.connectError.Some? {
      return Failure(server.connectError.value), pool;
    }
    pool := Open;
    // everything below runs inside `try { ... } finally { pool.close() }`
    if server.currentTime.Failure? {
      r := Failure(server.currentTime.error);
    } else {
      var terminalTime := server.currentTime.value;
      if terminal.isServer {
        if server.helpJob.Failure? {
          r := Failure(server.helpJob.error);
        } else {
          var enabledJobs := EnabledJobs(server.helpJob.value);
          var mappedJobs := MapServerJobs(enabledJobs, server.jobHistory);
          r := Success(TerminalJobs(mappedJobs, terminalTime));
        }
      } else {
        if server.fullQuery.Success? {
          r := Success(TerminalJobs(server.fullQuery.value, terminalTime));
        } else if IsPrivilegeError(server.fullQuery.error) {
          if server.safeQuery.Success? {
            r := Success(TerminalJobs(server.safeQuery.value, terminalTime));
          } else {
            r := Failure(server.safeQuery.error);
          }
        } else {
          r := Failure(server.fullQuery.error);
        }
      }
    }
    pool := Closed;
  }

  const ACTIVE_TERMINALS: string := "SELECT id, name, ip_address, is_server, branch_id FROM pos_terminals WHERE is_active = 1"

  /** `getActiveTerminals`: the branch filter is added only for a truthy
      branch id. */
  method ActiveTerminalsQuery(branchId: Option<int>) returns (q: Query)
    ensures Bound(q)
    ensures TruthyId(branchId) ==>
      Render(q.tokens) == ACTIVE_TERMINALS + " AND branch_id = ?" && q.params == [SqlInt(branchId.value)]
    ensures !TruthyId(branchId) ==> Render(q.tokens) == ACTIVE_TERMINALS && q.params == []
  {
    q := Query([Lit(ACTIVE_TERMINALS)], []);
    assert Render(q.tokens) == ACTIVE_TERMINALS + Render([]);
    assert Holes(q.tokens) == 0 + Holes([]);
    if branchId.Some? && branchId.value != 0 {
      q := AddBound(q, " AND branch_id = ", SqlInt(branchId.value));
    }
  }
}
