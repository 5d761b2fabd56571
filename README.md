# sysadmin-tools: a verified model of the rules under the admin panel

sysadmin-tools is an Express + MySQL/SQL Server admin panel for a chain of
shops. It monitors the point-of-sale terminals of each branch (SQL Agent
jobs, currency rates), pings network services, and manages users, branches,
terminals and screens. This project models the sequential logic beneath the
plumbing and proves what that logic promises. The model follows the source
module by module.

- **CurrencyService.** The per-terminal currency-rate cache with its
  600 000 ms lifetime: hit or miss around a fallible fetch, invalidation,
  statistics and the expiry sweep. It is a class over a `map`, and the
  sweep is a loop with its invariants.
- **DashboardService.** The decoding of SQL Server Agent data: the enabled-job
  filter, status and outcome codes, packed `yyyymmdd`/`HHMMSS` dates and
  `HHMMSS` durations. Also the loop that maps jobs to rows, the fallback to
  the reduced query on a permission error, and the connection that is
  always closed.
- **DashboardClient, DashboardMatrix and DashboardTimer.** The dashboard
  page:
  - the aggregate status, the staleness flag and the running stopwatch;
  - the ordered insertion of a terminal's row group into the shared matrix
    (a class with a search loop);
  - the countdown/cooldown refresh machine (a class with one method per
    timer callback).
- **ServicesService, ServicesController and ServicesClient.** Service
  monitoring:
  - the history row built from a ping, the newest-first history, and the
    category listing;
  - the terminal-to-service sync loop;
  - the batch ping, the history limit and the branch resolution;
  - card status and counters (which disagree for an alive service whose
    latency is undefined), and the in-progress ping guard.
- **PermissionMiddleware and UpdateModulesMiddleware.** The module guard
  with its admin bypass, and the session refresh when the module list
  changed.
- **UsersController and BranchesService.** The user delete/update guards
  and the branch delete guards.
- **TerminalsService and UsersService.** The `UPDATE` statements, which
  touch the password column only under their conditions, with placeholders
  always matching parameters. Also the user-creation transaction as a trace
  of connection steps.
- **CommonClient, ScreensClient, TerminalsClient, UsersClient,
  BranchesClient and Html.** The front-end formatters and form validators:
  the `HH:MM:SS, DD/MM/YYYY` layout, the MAC pattern, the required fields,
  the create-or-edit URL and method, and `escapeHtml`.
- **Shared support modules.**
  - `Wrappers`: Option and Result.
  - `Js`: JavaScript values, truthiness, `Number`.
  - `Text`: digits, padding, `trim`, `split`, `parseInt`.
  - `SqlQuery`: a statement as text pieces with bound placeholders.
  - `Collation`: the name order used for sorting.
  - `Entities`: small sequence facts.

Tables are maps or sequences. The clock (`now`), the rate sources, the ping
library, `encrypt` and the bcrypt hash are parameters. A date is the record
of fields its getters report, produced by a parameter that stands for
`new Date(...)`.

## Model

| member | source | states |
|---|---|---|
| CurrencyService.FreshnessConsistent | src/modules/terminals/currency.service.ts:112 | an entry is served by a lookup exactly when the sweep at line 183 would not delete it |
| CurrencyService.FreshKeys | src/modules/terminals/currency.service.ts:112 | the keys a lookup would serve: a subset of the cache, exactly the entries younger than 600 000 ms |
| CurrencyService.ExpiredKeys | src/modules/terminals/currency.service.ts:183 | the keys the sweep deletes: exactly the entries at least 600 000 ms old |
| CurrencyService.SweepPartition | src/modules/terminals/currency.service.ts:178-187 | fresh and expired keys are disjoint, together make up the whole cache, and their counts add up to its size |
| CurrencyService.Seconds | src/modules/terminals/currency.service.ts:163 | `Math.floor(ms / 1000)`: the whole seconds r with r·1000 ≤ ms < r·1000 + 1000, negative ages included |
| CurrencyService.StatsOf | src/modules/terminals/currency.service.ts:160-165 | a statistics line keeps id and terminal name; `age` and `expiresIn` are the floored seconds of the age and of the remaining lifetime |
| CurrencyService.AgePlusExpiresIn | src/modules/terminals/currency.service.ts:163-164 | age + expiresIn is 600, or 599 when the age is not a whole second; positive `expiresIn` means the entry is still served, negative means the sweep deletes it |
| CurrencyService.FetchRates | src/modules/terminals/currency.service.ts:33-92 | a rate source either returns the rows its query gave or fails with "No se pudieron obtener las tasas de " + the terminal name |
| CurrencyService.CurrencyCache.constructor | src/modules/terminals/currency.service.ts:18 | the cache starts empty |
| CurrencyService.CurrencyCache.GetCurrencyRates | src/modules/terminals/currency.service.ts:102-135 | no truthy id: rejected with "Terminal sin ID válido" and nothing changes; a fresh entry is returned without a query; otherwise the server or POS source is queried by `is_server`, and a success is stored with timestamp `now` while a failure leaves the cache unchanged |
| CurrencyService.CurrencyCache.ClearCurrencyCache | src/modules/terminals/currency.service.ts:144-153 | a truthy id removes only that entry (the rest keep their order); no id or the id 0 empties the cache |
| CurrencyService.CurrencyCache.GetCacheStats | src/modules/terminals/currency.service.ts:158-172 | `totalEntries` is the cache size, `cacheDuration` is 600, and there is exactly one line per cached key, each being StatsOf of that entry, listed in the `Map`'s insertion order |
| CurrencyService.CurrencyCache.CleanExpiredCache | src/modules/terminals/currency.service.ts:178-194 | the surviving cache is exactly the fresh entries with their data, in their old relative order; the result counts exactly the expired entries, so survivors + cleaned = old size |
| CurrencyService.SweepStep | src/modules/terminals/currency.service.ts:182-186 | visiting one key deletes and counts it exactly when it has expired and keeps it in the order exactly when it has not (the loop invariant's step) |
| CurrencyService.SweepDone | src/modules/terminals/currency.service.ts:182-193 | once every key is visited, the swept map is the fresh entries, the count is the number of expired entries, and the order still lists exactly the keys, without repeats |
| DashboardService.EnabledJobs | src/modules/dashboard/dashboard.service.ts:50 | the jobs kept are exactly those with `enabled === 1` and a name other than `syspolicy_purge_history`, never more than were listed |
| DashboardService.ExecutionStatus | src/modules/dashboard/dashboard.service.ts:83-84 | `Running` exactly when `current_execution_status` is 1, `Idle` otherwise |
| DashboardService.Outcome | src/modules/dashboard/dashboard.service.ts:87-90 | 1 → Exitoso, 0 → Fallido, 3 → Cancelado, and every other code → Desconocido, each label for exactly those codes |
| DashboardService.FormatRunDuration | src/modules/dashboard/dashboard.service.ts:57 | a duration that is not positive is shown as `00:00:00` |
| DashboardService.DurationFields | src/modules/dashboard/dashboard.service.ts:71-78 | for 0 ≤ d < 1 000 000 the padded HHMMSS text reads as two-digit hours d/10000, minutes d/100 mod 100 and seconds d mod 100 |
| DashboardService.DecodeRunDate | src/modules/dashboard/dashboard.service.ts:95-96 | `lastRunDate` is null exactly when `last_run_date` ≤ 0 |
| DashboardService.DateFromText | src/modules/dashboard/dashboard.service.ts:97-108 | a positive packed date always gives a Date (possibly an invalid one), never null |
| DashboardService.PackedDateFields | src/modules/dashboard/dashboard.service.ts:96-108 | an eight-digit yyyymmdd and a time below 1 000 000 give the Date of year, month − 1, day, hours, minutes and seconds read from the digits |
| DashboardService.ReadHistory | src/modules/dashboard/dashboard.service.ts:56-80 | the newest history record gives the message and (when positive) the formatted duration; no record or a failed lookup leaves `''` and `00:00:00` |
| DashboardService.MapJob | src/modules/dashboard/dashboard.service.ts:55-118 | one pass of the loop builds exactly the row the decoding functions describe for that job and its history |
| DashboardService.ServerRowsAt | src/modules/dashboard/dashboard.service.ts:52-119 | the server rows hold one row per enabled job, in order, row i being built from job i and that job's own history |
| DashboardService.MapServerJobs | src/modules/dashboard/dashboard.service.ts:52-119 | the loop pushes exactly the server rows of the enabled jobs |
| DashboardService.GetTerminalJobs | src/modules/dashboard/dashboard.service.ts:23-204 | unknown id: "Terminal no encontrada" with no connection; a connection that opened is always closed; a store server gets the enabled jobs' rows; a POS terminal gets the full query, falls back to the safe query exactly on a "permission was denied"/"sysjobhistory" error, and any other error is raised; a success carries the server's current time |
| DashboardService.ActiveTerminalsQuery | src/modules/dashboard/dashboard.service.ts:8-20 | the `branch_id = ?` filter and its parameter are added exactly when the branch id is truthy; placeholders always match the parameters |
| DashboardClient.GlobalStatus | public/js/dashboard.client.js:574-579 | `warning` exactly for a missing or empty list or one with a running job; `error` exactly when no job runs and some job failed; `success` otherwise, so a running job outweighs a failed one |
| DashboardClient.StripZ | public/js/dashboard.client.js:583 | `replace(/Z$/, '')` removes one trailing `Z` and leaves any other text unchanged |
| DashboardClient.StaleIgnoresZ | public/js/dashboard.client.js:581-588 | for a terminal, a date compares the same with or without its trailing `Z`, and a date is never stale against itself |
| DashboardClient.JobRowView | public/js/dashboard.client.js:422-432 | a row is highlighted exactly when its date is stale and the job is not running; its last-run, duration and start cells are those of `crearFilaJob` as written, the start cell taking `parts[1]` |
| DashboardClient.JobRowViewIntended | public/js/dashboard.client.js:422-432 | the same row with the start cell corrected to `parts[0]`, every other cell unchanged |
| DashboardClient.RunningJobRow | public/js/dashboard.client.js:409-432 | for a running job with a valid date, the written row shows the calendar day in both the last-run tail and the start cell, the corrected row shows the clock in the start cell, and neither row is highlighted |
| DashboardClient.ElapsedSeconds | public/js/dashboard.client.js:614-617 | the whole seconds between start and the terminal's clock, floored, and 0 when the clock is behind the start |
| DashboardClient.RunningDuration | public/js/dashboard.client.js:596-627 | a job that is not running shows its stored duration or `00:00:00`; a running job with a missing time shows `Calculando...`; with both dates valid it shows the stopwatch of the whole seconds elapsed between them, and with either date invalid the stopwatch of `NaN:NaN:NaN` |
| DashboardClient.NegativeElapsedIsZero | public/js/dashboard.client.js:614-615 | a clock behind the start (or less than a second after it) shows the stopwatch at zero |
| DashboardClient.ClockZero | public/js/dashboard.client.js:618-626 | zero seconds reads `00:00:00` |
| DashboardClient.ClockFields | public/js/dashboard.client.js:617-626 | below 100 hours the clock is `hh:mm:ss` with two digits per field, minutes and seconds below 60, and the fields read back as the elapsed seconds |
| DashboardClient.LastRunCell | public/js/dashboard.client.js:409-420 | a job that never ran shows `\|\|` |
| DashboardClient.LastRunCellParts | public/js/dashboard.client.js:409-420 | for a valid date the cell shows the clock part, ` \|\| `, then the calendar part |
| DashboardClient.StartCellAsWritten | public/js/dashboard.client.js:424-429 | the start cell is `-` unless the job is running and has a date |
| DashboardClient.StartCellShowsDate | public/js/dashboard.client.js:424-429 | as written, a running job's start cell is the calendar part of the layout, which holds no `:`, so no time of day is shown |
| DashboardClient.StartCell | public/js/dashboard.client.js:424-429 | corrected start cell: `-` unless the job is running and has a date |
| DashboardClient.StartCellShowsClock | public/js/dashboard.client.js:424-429 | corrected, a running job's start cell is the clock part of its date |
| DashboardMatrix.InsertByName | public/js/dashboard.client.js:361 | inserting one job into a sorted list adds exactly that job |
| DashboardMatrix.SortByNameCorrect | public/js/dashboard.client.js:361 | the new rows come out ordered by job name and are a permutation of the jobs received |
| DashboardMatrix.Without | public/js/dashboard.client.js:357-358 | removing a terminal's rows leaves no row of that terminal and never adds rows |
| DashboardMatrix.InsertionPoint | public/js/dashboard.client.js:373-385 | the insertion point is the first terminal row whose name sorts after the new terminal's, or the end when there is none |
| DashboardMatrix.Matrix.constructor | public/js/dashboard.client.js:169 | the matrix starts with its loading placeholder |
| DashboardMatrix.Matrix.RenderTerminalRows | public/js/dashboard.client.js:350-392 | the new row list is the old one without the first loading row and without the terminal's old rows, with the terminal's jobs, sorted by name, inserted at the insertion point |
| DashboardMatrix.RemoveFirstLoading | public/js/dashboard.client.js:354-355 | the scan removes exactly the first loading placeholder, if any |
| DashboardMatrix.DropTerminal | public/js/dashboard.client.js:357-358 | the loop drops exactly the terminal's rows and keeps the rest in order |
| DashboardMatrix.FindInsertionPoint | public/js/dashboard.client.js:378-385 | the search loop stops at the insertion point |
| DashboardMatrix.GroupsStayOrdered | public/js/dashboard.client.js:373-391 | if the terminal groups were in name order before rendering, they still are after it |
| DashboardMatrix.RenderedRows | public/js/dashboard.client.js:350-392 | after rendering, the terminal's rows are exactly its sorted jobs, and every other row is kept in its old order, only the first loading row being gone |
| DashboardTimer.ForceRefresh | public/js/dashboard.client.js:50-55 | while cooling down nothing changes; otherwise the countdown restarts at 300, the data is reloaded once, and a cooldown starts exactly when the page has the button (lines 57-61) |
| DashboardTimer.Tick | public/js/dashboard.client.js:33-46 | a paused tick changes nothing; an unpaused one takes one second off, and only reaching 0 triggers a refresh |
| DashboardTimer.CooldownTick | public/js/dashboard.client.js:73-85 | each second of the cooldown counts down, and the cooldown stays active exactly while more than one second was left |
| DashboardTimer.TogglePause | public/js/dashboard.client.js:88-89 | the pause flag flips and nothing else changes |
| DashboardTimer.ChangeBranch | public/js/dashboard.client.js:113-137 | the empty value clears the filter without a refresh; `all` clears the filter and any other value becomes it, and both then call ForceRefresh, which does nothing while the refresh button is cooling down |
| DashboardTimer.OpenDetails | public/js/dashboard.client.js:21-22 | opening the details modal pauses the countdown and changes nothing else |
| DashboardTimer.CloseDetails | public/js/dashboard.client.js:21-23 | closing the details modal un-pauses the countdown, whatever its pause state was, and changes nothing else |
| DashboardTimer.ModalFreezesCountdown | public/js/dashboard.client.js:21-46 | while the details modal is open, any number of ticks leave the timer unchanged |
| DashboardTimer.CountdownReachesRefresh | public/js/dashboard.client.js:33-45 | from k seconds left, k − 1 ticks only count down and the k-th tick forces a refresh |
| DashboardTimer.CooldownLasts | public/js/dashboard.client.js:64-85 | a cooldown with k seconds left is still active after k − 1 ticks and over after k |
| DashboardTimer.RefreshCooldown | public/js/dashboard.client.js:50-85 | a refresh from rest keeps the button busy for exactly 10 ticks, during which a further refresh does nothing |
| DashboardTimer.Dashboard.constructor | public/js/dashboard.client.js:1-5 | the globals start at 300 seconds, not paused, not cooling down, with no branch filter |
| DashboardTimer.Dashboard.OnTick | public/js/dashboard.client.js:33-46 | the interval callback updates the globals as Tick says |
| DashboardTimer.Dashboard.ForceRefreshNow | public/js/dashboard.client.js:50-62 | `forzarRefrescoTotal` updates the globals as ForceRefresh says |
| DashboardTimer.Dashboard.OnCooldownTick | public/js/dashboard.client.js:73-85 | the cooldown interval updates the globals as CooldownTick says |
| DashboardTimer.Dashboard.ToggleTimer | public/js/dashboard.client.js:88-89 | `toggleTimer` flips only the pause flag |
| DashboardTimer.CloseDetailsResumes | public/js/dashboard.client.js:21-23 | a countdown the user paused with the toggle runs again after the details modal opens and closes, and the next tick counts down |
| DashboardTimer.Dashboard.OnDetailsShown | public/js/dashboard.client.js:22 | the state becomes OpenDetails of the old state |
| DashboardTimer.Dashboard.OnDetailsHidden | public/js/dashboard.client.js:23 | the state becomes CloseDetails of the old state |
| DashboardTimer.Dashboard.OnBranchChange | public/js/dashboard.client.js:113-137 | `cambiarSucursal` updates the globals as ChangeBranch says |
| ServicesService.CategoryOr | src/modules/services/services.service.ts:39 | `data.category \|\| 'servicios'`: a non-empty category is kept, a missing or empty one becomes `servicios` |
| ServicesService.CheckOf | src/modules/services/services.service.ts:81-95 | the history row copies alive, packet loss, min and max, puts avg in both `response_time` and `avg_time`, and has an error message exactly when the host is not alive, namely "Host unreachable" |
| ServicesService.PingOutcome | src/modules/services/services.service.ts:64-78 | an unknown id fails with "Servicio no encontrado"; a known one gives the ping of that service's host |
| ServicesService.ChecksOf | src/modules/services/services.service.ts:106 | `WHERE service_id = ?` keeps every check of the service as often as it occurs in the table and no other check; their number is CountChecks |
| ServicesService.InsertByTime | src/modules/services/services.service.ts:107 | inserting one check into a sorted history adds exactly that check |
| ServicesService.SortNewestFirstCorrect | src/modules/services/services.service.ts:107 | `ORDER BY checked_at DESC` gives a newest-first permutation of the checks |
| ServicesService.Take | src/modules/services/services.service.ts:108 | `LIMIT n` keeps the first min(n, length) rows |
| ServicesService.HistoryCorrect | src/modules/services/services.service.ts:103-111 | the history holds only the service's checks, newest first, min(limit, number of the service's checks in the table) of them, drawn from those checks; every check of the service in the table is shown or is no newer than any shown, and all are shown when the limit allows |
| ServicesService.CategoryQueryOf | src/modules/services/services.service.ts:117-151 | the branch filter and its parameter are present exactly when the category is `terminales` and the branch id is truthy; placeholders match parameters |
| ServicesService.CategoryQuery | src/modules/services/services.service.ts:118-147 | the statement grown piece by piece is CategoryQueryOf |
| ServicesService.ActiveOfBranch | src/modules/services/services.service.ts:158-161 | the terminals read are exactly the active ones of the branch |
| ServicesService.RelinkAll | src/modules/services/services.service.ts:186-191 | the update touches every service linked to the terminal (new name, ip, active, updater) and no other, and removes none |
| ServicesService.SyncOne | src/modules/services/services.service.ts:165-192 | one terminal of the loop leaves it linked to a service, keeps every existing id and keeps ids fresh |
| ServicesService.SyncLinksAll | src/modules/services/services.service.ts:156-194 | after the sync every processed terminal has a linked service, no service is lost and ids stay fresh |
| ServicesService.SyncLeavesOthers | src/modules/services/services.service.ts:164-192 | a service not linked to any processed terminal is left exactly as it was |
| ServicesService.SyncCreatesTerminalServices | src/modules/services/services.service.ts:170-183 | every service the sync creates is of type `ip`, category `terminales`, active, and linked to a processed terminal |
| ServicesService.SyncReactivates | src/modules/services/services.service.ts:184-191 | every service linked to a processed terminal ends up active |
| ServicesService.SyncOneKeepsKind | src/modules/services/services.service.ts:184-191 | updating an existing link keeps the service's type, category and terminal link; its state only ever becomes active |
| ServicesService.LinkPersists | src/modules/services/services.service.ts:164-192 | a link made by an earlier step of the loop survives every later step |
| ServicesService.ServiceStore.constructor | src/modules/services/services.service.ts:9-31 | the store starts with no services and no checks |
| ServicesService.ServiceStore.CreateService | src/modules/services/services.service.ts:36-42 | a new id is added with the given fields, the category defaulted, active, created by the caller; nothing else changes |
| ServicesService.ServiceStore.UpdateService | src/modules/services/services.service.ts:47-52 | the service gets the new fields, the category defaulted and `is_active` as sent; an unknown id changes nothing |
| ServicesService.ServiceStore.PingServiceAndSave | src/modules/services/services.service.ts:64-98 | an unknown id fails before anything is written; otherwise exactly one CheckOf row is appended and the ping result is returned unchanged |
| ServicesService.ServiceStore.SyncTerminalsAsServices | src/modules/services/services.service.ts:156-194 | the loop leaves the services as SyncAll of the branch's active terminals in table order, the history untouched |
| ServicesController.PingAll | src/modules/services/services.controller.ts:95-97 | the results of all pings in input order, one per id, or the error of a failing id |
| ServicesController.PingBatch | src/modules/services/services.controller.ts:84-103 | a non-array or empty `serviceIds` is exactly the 400 reply; a 500 carries the error of some id's ping; a success holds one result per id, in order |
| ServicesController.PingAllSucceedsIff | src/modules/services/services.controller.ts:95-97 | the batch succeeds if and only if every id's ping succeeds |
| ServicesController.BatchOfKnownIds | src/modules/services/services.controller.ts:95-99 | with the store's ping, a batch of known ids yields, per id, the ping of that service's host |
| ServicesController.BatchWithUnknownId | src/modules/services/services.controller.ts:95-102 | one unknown id turns the batch into a 500 with "Servicio no encontrado" |
| ServicesController.HistoryLimit | src/modules/services/services.controller.ts:111 | a missing or empty `limit` is 50; a digit string is its value; anything else is a number or NaN |
| ServicesController.ResolveBranch | src/modules/services/services.controller.ts:128-138 | only `terminales` resolves a branch: the admin's non-empty query value parsed with `parseInt`, otherwise the user's own branch |
| ServicesController.PlanCategory | src/modules/services/services.controller.ts:128-144 | the sync runs exactly for `terminales` with a truthy resolved branch |
| ServicesController.SyncMatchesFilter | src/modules/services/services.controller.ts:141-146 | the terminals are synced exactly when the listing is filtered by branch, and for that same branch |
| ServicesController.NonAdminUsesOwnBranch | src/modules/services/services.controller.ts:133-138 | a non-admin's query value is ignored: the branch is always their own |
| ServicesController.AdminChoosesBranch | src/modules/services/services.controller.ts:133-134 | an admin's digit-string query value selects that branch |
| ServicesClient.GetServiceStatus | public/js/services.client.js:138-169 | each status holds exactly under its condition: unchecked is unknown; status 1 is up below 100 ms (a null or undefined time reading as 0 through `\|\| 0`) and slow otherwise; anything else is down |
| ServicesClient.LatencyOf | public/js/services.client.js:339 | a ping with no average leaves the latency undefined, never null; an average is stored as its number |
| ServicesClient.UpdateStats | public/js/services.client.js:171-181 | the total is the list length and each counter is at most the total |
| ServicesClient.StatsMatchCards | public/js/services.client.js:138-181 | when status and check time come from the same check and no latency is undefined, online counts the green cards, offline the red, unknown the unchecked, and the four kinds add up to the total |
| ServicesClient.RenderServicesGrid | public/js/services.client.js:38-55 | an empty list shows exactly the empty-state panel; otherwise one card per service in order, then the add card |
| ServicesClient.SaveService | public/js/services.client.js:248-270 | name and host are required (the warning exactly when one is empty); a non-empty id is a PUT to `/services/<id>`, none a POST to `/services`; the body carries the fields and `is_active` as 1 or 0 |
| ServicesClient.EditMovesToServicios | public/js/services.client.js:249-255 | the form sends no category, so the update handler's default moves any edited service, terminal links included, to `servicios` |
| ServicesClient.FindIndex | public/js/services.client.js:335 | `findIndex`: the first position with that id, or -1 exactly when there is none |
| ServicesClient.ApplyPingChangesOneEntry | public/js/services.client.js:335-341 | a successful ping changes only the first entry with that id, and only its status, latency and check time; an absent id changes nothing |
| ServicesClient.UndefinedLatencyUncounted | public/js/services.client.js:147-173 | an alive service with an undefined latency has a green card (`undefined \|\| 0` is 0) but is not counted online (`undefined < 100` is false) |
| ServicesClient.PingWithoutAverage | public/js/services.client.js:335-341 | a ping that finds the host alive with no average leaves a green card that the online counter does not count |
| ServicesClient.PingedIsChecked | public/js/services.client.js:335-341 | a pinged entry is never unknown afterwards, and is down exactly when the host was not alive |
| ServicesClient.ServicesPage.constructor | public/js/services.client.js:7-8 | the page starts with the loaded services and no ping in progress |
| ServicesClient.ServicesPage.BeginPing | public/js/services.client.js:321-328 | a ping of an id already in progress is refused; otherwise the id is marked; the services are unchanged |
| ServicesClient.ServicesPage.FinishPing | public/js/services.client.js:333-358 | every outcome clears the mark; only a successful answer updates the list, as ApplyPing |
| Html.EscapeChar | public/js/services.client.js:454-460 | a character outside `& < > " '` is kept as itself |
| Html.EscapeHtml | public/js/services.client.js:453-462 | the escaped text is never shorter than the original |
| Html.EscapeRoundTrip | public/js/branches.client.js:42-51 | escaping loses nothing: reading the five entities back gives the original text |
| Html.EscapeIsSafe | public/js/services.client.js:453-462 | the escaped text contains none of `< > " '` |
| Html.EscapeKeepsPlain | public/js/services.client.js:461 | a text with no character to escape is returned unchanged |
| PermissionMiddleware.RequireModule | src/shared/middlewares/permission.middleware.ts:3-28 | no session user is exactly the login redirect; `next()` exactly for an admin or a holder of the module; the JSON 403 exactly for other XHR or JSON-accepting requests, with its message; the view 403 names the module |
| PermissionMiddleware.AdminPassesEveryGuard | src/shared/middlewares/permission.middleware.ts:10-12 | an admin passes every module guard, whatever modules they hold |
| PermissionMiddleware.MoreModulesNeverDeny | src/shared/middlewares/permission.middleware.ts:15-17 | granting more modules never takes access away, and granting the module lets the user through |
| PermissionMiddleware.DenialShapeFollowsRequest | src/shared/middlewares/permission.middleware.ts:20-27 | two denials for the same request are the same reply, whoever was denied |
| UpdateModulesMiddleware.HasChanged | src/shared/middlewares/update-modules.middleware.ts:28-31 | the lists count as unchanged exactly when they have the same length and the same set of modules |
| UpdateModulesMiddleware.PermutationUnchanged | src/shared/middlewares/update-modules.middleware.ts:28-31 | a reordering of the same list is not a change |
| UpdateModulesMiddleware.DistinctListsCompareAsSets | src/shared/middlewares/update-modules.middleware.ts:28-31 | for lists without repetitions, unchanged holds if and only if they hold the same modules |
| UpdateModulesMiddleware.RepetitionsGoUnnoticed | src/shared/middlewares/update-modules.middleware.ts:28-31 | `[a, a, b]` and `[a, b, b]` differ as multisets and still count as unchanged |
| UpdateModulesMiddleware.Payload | src/shared/middlewares/update-modules.middleware.ts:40-47 | the new payload keeps id, username, role, branch id and branch name, and carries the database modules |
| UpdateModulesMiddleware.UpdateUserModules | src/shared/middlewares/update-modules.middleware.ts:13-70 | no user is exactly the login redirect; a database failure continues with the user unchanged; otherwise the session is reissued exactly when the lists differ, with the database modules |
| UpdateModulesMiddleware.RefreshIsIdempotent | src/shared/middlewares/update-modules.middleware.ts:28-61 | running the middleware again with the same database list reissues nothing |
| UpdateModulesMiddleware.GuardSeesDatabaseModules | src/shared/middlewares/update-modules.middleware.ts:22-61 | after the middleware, the module guard lets a non-admin through exactly for the modules the database lists |
| UsersController.Update | src/modules/users/users.controller.ts:70-95 | a non-admin gets 403 with nothing written; an admin's failing update is a 400 with its message and no audit; a successful one is audited as UPDATE USER of the same id |
| UsersController.Remove | src/modules/users/users.controller.ts:97-131 | a non-admin gets 403; deleting one's own id is a 400 with nothing written; otherwise the delete, then the audit only when it succeeded |
| UsersController.DeletionGuarded | src/modules/users/users.controller.ts:103-125 | a delete happens only for an admin other than the target; an audit entry always follows the delete of the same id; 200 exactly when allowed and successful |
| UsersController.NoSelfDeletion | src/modules/users/users.controller.ts:110-112 | an admin's own account is never deleted, whatever the database would answer |
| BranchesService.CountOf | src/modules/branches/branches.service.ts:33-38 | the count is zero exactly when nothing refers to the branch |
| BranchesService.CreateBranch | src/modules/branches/branches.service.ts:17-22 | one new active branch under a fresh id, nothing else changes, and the reference invariant is kept |
| BranchesService.DeleteBranch | src/modules/branches/branches.service.ts:31-58 | refused with the terminal count while terminals refer to the branch, then with the user count while users do; succeeds exactly when neither does, removing only that branch |
| BranchesService.DeletePreservesReferences | src/modules/branches/branches.service.ts:31-58 | a successful delete never leaves a terminal or a user pointing at a missing branch |
| BranchesService.CreatedBranchCanBeDeleted | src/modules/branches/branches.service.ts:17-58 | a just-created branch can be deleted, giving back the branches as they were |
| TerminalsService.Flag | src/modules/terminals/terminals.service.ts:37 | `x ? 1 : 0`: 1 exactly for a truthy value, 0 exactly for a falsy one |
| TerminalsService.StoredOnCreate | src/modules/terminals/terminals.service.ts:20-25 | a non-empty password is stored encrypted; a missing or empty one is stored as sent |
| TerminalsService.CreateTerminalParams | src/modules/terminals/terminals.service.ts:19-43 | eight values in column order: the password as StoredOnCreate, `is_active` always 1, `is_server` as a 0/1 flag, then branch and creator |
| TerminalsService.CreateNeverStoresPlainText | src/modules/terminals/terminals.service.ts:20-25 | a non-empty password is never stored as its plain text, when the cipher changes it |
| TerminalsService.UpdateBase | src/modules/terminals/terminals.service.ts:48-57 | seven placeholders, each with its value, in column order, flags as 0/1 |
| TerminalsService.PasswordAfterUpdate | src/modules/terminals/terminals.service.ts:59-70 | the blank box empties the password; a password not blank after trimming replaces it encrypted; otherwise the stored one is kept |
| TerminalsService.UpdateTerminalQuery | src/modules/terminals/terminals.service.ts:46-76 | the statement built piece by piece is the single UpdateStatement |
| TerminalsService.UpdateStatementParams | src/modules/terminals/terminals.service.ts:48-73 | every `?` has its value; the seven base values come first and the id last |
| TerminalsService.UpdateStatementPassword | src/modules/terminals/terminals.service.ts:60-72 | `db_pass = ?` is present exactly when a password is written, with the empty text for the blank box and the encrypted password otherwise |
| UsersService.BranchOrMain | src/modules/users/users.service.ts:39 | a truthy branch id is kept; a missing or zero one becomes branch 1 |
| UsersService.ModuleRows | src/modules/users/users.service.ts:51 | one `(user id, code)` row per module, in order |
| UsersService.CreateUser | src/modules/users/users.service.ts:31-65 | the connection is always released last; success exactly when every database call succeeds, and then the trace is begin, user insert (hashed password, branch default), module rows only for a non-empty list, commit; a failure rolls back right before the release |
| UsersService.UpdateBase | src/modules/users/users.service.ts:69-70 | four placeholders, each with its value, in column order |
| UsersService.UpdateUserQuery | src/modules/users/users.service.ts:68-82 | the statement built piece by piece is the single UpdateStatement |
| UsersService.UpdateStatementParams | src/modules/users/users.service.ts:69-79 | every `?` has its value; the four base values come first and the id last |
| UsersService.UpdateStatementPassword | src/modules/users/users.service.ts:72-78 | `password_hash=?` is present exactly for a password not blank after trimming, and its value is that password's hash |
| UsersService.BlankPasswordKeepsHash | src/modules/users/users.service.ts:72 | a password made only of whitespace writes no new hash |
| CommonClient.FormatDate | public/js/common.js:67-102 | an absent or empty value is exactly the `-` output; a valid date gives the `HH:MM:SS, DD/MM/YYYY` layout of its UTC or local fields; an invalid one the all-NaN layout |
| CommonClient.TwoDigits | public/js/common.js:72-78 | a field below 100 shows as exactly two digits that read back as the field |
| CommonClient.TimeText | public/js/common.js:76-80 | the clock part holds no comma and starts and ends with a digit |
| CommonClient.DateText | public/js/common.js:72-80 | the calendar part holds no comma and starts and ends with a digit or sign |
| CommonClient.OneComma | public/js/common.js:80 | the layout of a valid date holds exactly one comma, and splitting at it gives the clock part and the space-led calendar part |
| CommonClient.PartsAreTrimmed | public/js/common.js:80 | trimming the two split parts gives back the clock part and the calendar part |
| ScreensClient.MacRegexShape | public/js/screens.client.js:401 | the regular expression accepts exactly the 17-character texts with `:` at every third position and upper-case hex digits elsewhere |
| ScreensClient.NormalizeMac | public/js/screens.client.js:398 | trimming and ASCII upper-casing never lengthen the input |
| ScreensClient.SaveMacAddress | public/js/screens.client.js:394-408 | a value is sent exactly when the input, trimmed and ASCII upper-cased, matches the pattern, and it is that normalised text, of the MAC shape |
| ScreensClient.AcceptedMacIsStable | public/js/screens.client.js:398-402 | an accepted MAC is accepted again unchanged: normalising is idempotent on it |
| ScreensClient.SaveScreen | public/js/screens.client.js:148-172 | a missing name warns first, then a `dlna` device without IP; a send happens exactly otherwise, PUT to `/screens/<id>` exactly in edit mode with an id, else POST to `/screens/create`; an empty IP goes as null |
| ScreensClient.DlnaAlwaysHasAddress | public/js/screens.client.js:160-170 | every screen saved as `dlna` carries a non-null IP address |
| TerminalsClient.StatusFormatter | public/js/terminals.client.js:2-8 | the active badge is shown exactly for the values `1` and `true` |
| TerminalsClient.TypeFormatter | public/js/terminals.client.js:11-17 | the server badge is shown exactly for the values `1` and `true` |
| TerminalsClient.ActionFormatter | public/js/terminals.client.js:20-28 | the edit dialog gets 1 exactly for `1`/`true` and 0 otherwise for type and state; a falsy branch id becomes 1, a truthy one is passed on |
| TerminalsClient.EditArgsMatchBadges | public/js/terminals.client.js:2-28 | the edit dialog opens with the type and state the table's badges show |
| TerminalsClient.ToggleForceBlank | public/js/terminals.client.js:53-63 | checking the box empties and disables the password field; unchecking enables it and keeps its text |
| TerminalsClient.SaveTerminal | public/js/terminals.client.js:115-144 | name, then IP, then database user are required, each with its warning; a send happens exactly when all three are present, PUT to `/terminals/<id>` exactly for a non-empty id, else POST; the type `"1"` is the server flag; state and branch go through `Number` |
| TerminalsClient.ForceBlankClearsPassword | public/js/terminals.client.js:53-144 | checking the box and saving an existing terminal sends an empty password with the flag, and the update leaves the stored password empty |
| TerminalsClient.TypeReachesServerFlag | public/js/terminals.client.js:121-122 | the type chosen in the dialog is the `is_server` value the update stores |
| UsersClient.RoleLabel | public/js/users.client.js:2-10 | `admin` shows Administrador, `analista` Analista, any other role Visualizador |
| UsersClient.DateLabel | public/js/users.client.js:13-16 | a missing or empty date shows `-`, any other the locale date |
| UsersClient.DeleteButtonMatchesGuard | public/js/users.client.js:31-44 | the delete button is live exactly on the rows an admin's delete request acts on; the disabled row is the one the server refuses as self-deletion |
| UsersClient.CheckedModules | public/js/users.client.js:137-140 | a module is sent exactly when some checked box carries it; never more modules than boxes |
| UsersClient.CheckedModulesConcat | public/js/users.client.js:138-140 | the modules follow page order: those of two runs of boxes are the first run's, then the second's |
| UsersClient.CheckedModulesInOrder | public/js/users.client.js:138-140 | no box checked sends no module; all boxes checked sends every value in page order |
| UsersClient.SaveUser | public/js/users.client.js:126-156 | a username is always required, a password only without an id; a send happens exactly otherwise, PUT to `/users/<id>` exactly for an id, else POST to `/users`, with the checked modules |
| UsersClient.PasswordOnlyForCreation | public/js/users.client.js:133-134 | an empty password is accepted exactly when editing an existing user |
| BranchesClient.StatusFormatter | public/js/branches.client.js:19-25 | the active badge is shown exactly for the number `1` (not for `true`) |
| BranchesClient.SaveBranch | public/js/branches.client.js:82-108 | fields are trimmed; the name, then the code are required, each with its warning; a send happens exactly when both remain; PUT to `/branches/<id>` exactly for an id, else POST; an address empty after trimming goes as null; the state goes through `Number` |
| BranchesClient.SentFieldsAreTrimmed | public/js/branches.client.js:84-85 | the name and code sent never start or end with whitespace and are never empty |
| BranchesClient.BlankNameRefused | public/js/branches.client.js:84-90 | a name made only of spaces is refused with the name warning |
| Js.OrElse | public/js/terminals.client.js:24 | `v \|\| fallback` is `v` exactly when `v` is truthy |
| Js.ToNumber | src/modules/services/services.controller.ts:111 | `Number(s)` is always a number or NaN; a digit string is its decimal value |
| Text.ParseInt | src/modules/services/services.controller.ts:134 | `parseInt` of a digit string is its decimal value |
| Text.ParseIntStopsAtNonDigit | src/modules/services/services.controller.ts:134 | `parseInt` reads the leading digits and ignores what follows them |
| Text.TrimIsFramed | public/js/branches.client.js:84-86 | a non-empty `trim()` result neither starts nor ends with whitespace |
| Text.TrimFramed | public/js/branches.client.js:84-86 | a text that neither starts nor ends with whitespace is its own trim |
| Text.UpperAscii | public/js/screens.client.js:398 | the ASCII part of `toUpperCase`: each ASCII lower-case letter becomes its capital and every other character is kept |
| Text.NatToStringRoundTrip | public/js/common.js:72-78 | the decimal text of a number reads back as that number |
| Collation.Irreflexive | public/js/dashboard.client.js:361 | no name sorts before itself |
| Collation.Transitive | public/js/dashboard.client.js:361 | the name order is transitive |
| Collation.Total | public/js/dashboard.client.js:381 | two different names are ordered one way or the other |

## Left out

- SQL text and the database drivers (mysql2 pools, mssql connections). Tables are maps or sequences, and a statement is modelled only as its placeholder structure and parameters; the `OUTER APPLY` job query and the `sysjobhistory` texts are not modelled.
- `new Date`, time zones and `toLocaleDateString`. A date is the record of fields its UTC or local getters give, produced by a function parameter; Invalid Date is `None`.
- Floating point: ping times and packet loss are `real` values carried unchanged, and `toFixed` display is not modelled. The exchange factor `n_factor` of a currency row is dropped from the model. JavaScript numbers are integers plus a NaN case; `Number` does not read fractions, exponents or hexadecimal.
- `localeCompare` is the code-unit lexicographic order, a strict total order; locale-specific collation is not modelled.
- `parseInt` is base 10 only; other radix prefixes are not modelled.
- `Promise.all` in the batch ping is read sequentially. The batch fails with the error of the first failing id by position, where the real fan-out reports whichever rejects first.
- `setInterval`/`setTimeout` scheduling is a tick method per callback. The per-terminal request fan-out of the dashboard is not modelled.
- The `ping` library, `crypto.util` (AES) and bcrypt are function parameters; their outputs are not modelled.
- `getUserModules` (the database read the session refresh depends on) is a parameter: its result or failure.
- Audit log entries are modelled as the action, entity and id of the call; the free-text detail, user branch and IP address are left out.
- `updateBranch`, `getAllBranches`, `getAllTerminals`, `deleteTerminal`, `deleteUser`, `getAllServices` and `deleteService` are single SQL statements with no rule to state, and are not modelled.
- The `executeJob`, `stopJob` and `getJobHistory` family of the dashboard service only forwards stored-procedure calls, and is not modelled.
- The DOM, HTML templates, modals, SweetAlert and toast calls (the details modal's writes to the pause flag are modelled as OpenDetails and CloseDetails). The grid is the list of panels it shows, and a form is the values it reads and the request it sends.
- ServicesController.HistoryLimit: a NaN limit (from a non-numeric query value) is passed on as NaN; what the `LIMIT ?` then does in MySQL is not modelled.
- ServicesService.SortNewestFirstCorrect: `ORDER BY checked_at DESC` is a sort on the time text. The order among checks with equal times is not modelled, since SQL does not fix it.
- CurrencyService.CurrencyCache.CleanExpiredCache: the source deletes expired entries from the live map while iterating it. The method loops over a copy and writes the map and its key order once at the end; the final state is the same.
- DashboardService.FormatRunDuration: for durations of 1 000 000 and more the text is only stated to be non-empty; the field values are not specified there.
- Text.UpperAscii: only ASCII letters are upper-cased. JavaScript's `toUpperCase` also maps other characters, some to several (`ß` to `SS`, the ligature `ﬀ` to `FF`); these mappings are not modelled.
- ScreensClient.NormalizeMac: built on Text.UpperAscii, so an input the full case mapping turns into a MAC is refused by the model and accepted by the source, for instance `ﬀ:ﬀ:ﬀ:ﬀ:ﬀ:ﬀ`. ScreensClient.SaveMacAddress inherits this.
- The server branch of the job-row rendering (public/js/dashboard.client.js:337-346): a server's jobs are sorted by name and replace its own table body. DashboardMatrix models only the shared terminal matrix; the rows themselves are JobRowView.
- The screens device automation (WebSocket, Wake-on-LAN, UPnP), authentication (jwt, cookies) and Express routing are not part of this model.

## Findings

| source | as written | input that shows it | evidently intended | confidence | as-written member | corrected member |
|---|---|---|---|---|---|---|
| public/js/dashboard.client.js:424-429 | the start cell of a running job takes `parts[1]` of the `HH:MM:SS, DD/MM/YYYY` layout, which is the calendar date (`JobRowView` keeps this cell) | any running job with a valid `LastRunDate`, e.g. one started at 07:44:30 on 23/12/2025 shows `23/12/2025` | the cell named `startTime` shows the clock part `parts[0]`, e.g. `07:44:30` (`JobRowViewIntended`) | medium, not executed | DashboardClient.StartCellShowsDate | DashboardClient.StartCellShowsClock |
