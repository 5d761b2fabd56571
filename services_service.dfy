/** The monitored-services store: the `sys_services` table (services by
    id), the append-only `sys_service_checks` history, and the operations
    that create, update, ping and list services, and link the active POS
    terminals of a branch as services. */
module ServicesService {
  import opened Wrappers
  import opened Js
  import opened SqlQuery

  /** A row of `sys_services`; `kind` is the `type` column. */
  datatype ServiceRow = ServiceRow(name: string, host: string, kind: string, category: string,
                                   terminalId: Option<int>, description: Option<string>,
                                   isActive: Option<int>, createdBy: Option<int>, updatedBy: Option<int>)

  /** The fields a create or update request carries. */
  datatype ServiceInput = ServiceInput(name: string, host: string, kind: string, category: Option<string>,
                                       description: Option<string>, isActive: Option<int>)

  /** What the ping wrapper reports; times are in milliseconds. */
  datatype PingResult = PingResult(alive: bool, packetLoss: Option<string>, min: Option<real>,
                                   max: Option<real>, avg: Option<real>, host: string)

  /** A row of `sys_service_checks`; `checkedAt` is the insertion time. */
  datatype CheckRow = CheckRow(serviceId: int, isAlive: bool, responseTime: Option<real>, packetLoss: Option<string>,
                               minTime: Option<real>, maxTime: Option<real>, avgTime: Option<real>,
                               errorMessage: Option<string>, checkedAt: int)

  /** A row of `pos_terminals` as the sync reads it. */
  datatype PosTerminal = PosTerminal(id: int, name: string, ipAddress: string, branchId: int, isActive: bool)

  const DEFAULT_CATEGORY := "servicios"
  const UNREACHABLE := "Host unreachable"
  const NOT_FOUND := "Servicio no encontrado"
  const DEFAULT_HISTORY_LIMIT := 50

  /** `data.category || 'servicios'` */
  function CategoryOr(category: Option<string>): (r: string)
    ensures category.Some? && category.value != "" ==> r == category.value
    ensures !(category.Some? && category.value != "") ==> r == DEFAULT_CATEGORY
  {
    if category.Some? && category.value != "" then category.value else DEFAULT_CATEGORY
  }

  /** The history row a ping appends. */
  function CheckOf(serviceId: int, p: PingResult, now: int): (c: CheckRow)
    ensures c.serviceId == serviceId && c.isAlive == p.alive && c.packetLoss == p.packetLoss
    ensures c.minTime == p.min && c.maxTime == p.max
    ensures c.responseTime == p.avg && c.avgTime == p.avg
    ensures c.errorMessage.None? <==> p.alive
    ensures c.errorMessage.Some? ==> c.errorMessage.value == UNREACHABLE
  {
    CheckRow(serviceId, p.alive, p.avg, p.packetLoss, p.min, p.max, p.avg,
             if p.alive then None else Some(UNREACHABLE), now)
  }

  /** What `pingServiceAndSave` answers for an id: the ping of the
      service's host, or the not-found error. */
  function PingOutcome(services: map<int, ServiceRow>, serviceId: int, ping: string -> PingResult): (r: Result<PingResult>)
    ensures r.Failure? <==> serviceId !in services
    ensures r.Failure? ==> r.error == NOT_FOUND
    ensures r.Success? ==> r.value == ping(services[serviceId].host)
  {
    if serviceId in services then Success(ping(services[serviceId].host)) else Failure(NOT_FOUND)
  }

  // -----------------------------------------------------------------------
  // History: the checks of one service, newest first, at most `limit`
  // -----------------------------------------------------------------------

  /** How many rows of the table belong to the service. */
  function CountChecks(checks: seq<CheckRow>, serviceId: int): (n: nat)
    ensures n <= |checks|
  {
    if checks == [] then 0
    else CountChecks(checks[..|checks| - 1], serviceId) + (if checks[|checks| - 1].serviceId == serviceId then 1 else 0)
  }

  /** `WHERE service_id = ?`: every row of the service is kept, as often as
      it occurs, and no other row. */
  function ChecksOf(checks: seq<CheckRow>, serviceId: int): (r: seq<CheckRow>)
    ensures forall c :: multiset(r)[c] == if c.serviceId == serviceId then multiset(checks)[c] else 0
    ensures forall c :: c in r <==> c in checks && c.serviceId == serviceId
    ensures |r| == CountChecks(checks, serviceId)
  {
    if checks == [] then []
    else if checks[|checks| - 1].serviceId == serviceId
    then
      MultisetOfInit(checks);
      ChecksOf(checks[..|checks| - 1], serviceId) + [checks[|checks| - 1]]
    else
      MultisetOfInit(checks);
      ChecksOf(checks[..|checks| - 1], serviceId)
  }

  predicate NewestFirst(cs: seq<CheckRow>) {
    forall i, j :: 0 <= i < j < |cs| ==> cs[i].checkedAt >= cs[j].checkedAt
  }

  function InsertByTime(c: CheckRow, sorted: seq<CheckRow>): (r: seq<CheckRow>)
    ensures multiset(r) == multiset(sorted) + multiset{c}
    ensures |r| == |sorted| + 1
  {
    if sorted == [] || c.checkedAt > sorted[0].checkedAt then [c] + sorted
    else
      assert sorted == [sorted[0]] + sorted[1..];
      [sorted[0]] + InsertByTime(c, sorted[1..])
  }

  /** `ORDER BY checked_at DESC` */
  function SortNewestFirst(cs: seq<CheckRow>): (r: seq<CheckRow>)
    ensures |r| == |cs|
  {
    if cs == [] then [] else InsertByTime(cs[|cs| - 1], SortNewestFirst(cs[..|cs| - 1]))
  }

  /** `LIMIT n` */
  function Take<T>(s: seq<T>, n: nat): (r: seq<T>)
    ensures |r| == if n < |s| then n else |s|
    ensures r == s[..|r|]
  {
    if n < |s| then s[..n] else s
  }

  /** `getServiceHistory(serviceId, limit)` */
  function History(checks: seq<CheckRow>, serviceId: int, limit: nat): seq<CheckRow> {
    Take(SortNewestFirst(ChecksOf(checks, serviceId)), limit)
  }

  lemma {:induction false} InsertByTimeSorted(c: CheckRow, sorted: seq<CheckRow>)
    requires NewestFirst(sorted)
    ensures NewestFirst(InsertByTime(c, sorted))
    decreases |sorted|
  {
    if sorted != [] && c.checkedAt <= sorted[0].checkedAt {
      InsertByTimeSorted(c, sorted[1..]);
      var tail := InsertByTime(c, sorted[1..]);
      forall k | 0 <= k < |tail|
        ensures sorted[0].checkedAt >= tail[k].checkedAt
      {
        assert tail[k] in multiset(tail);
        if tail[k] != c {
          assert tail[k] in multiset(sorted[1..]);
          var m :| 0 <= m < |sorted[1..]| && sorted[1..][m] == tail[k];
          assert sorted[m + 1] == tail[k];
        }
      }
    }
  }

  lemma {:induction false} SortNewestFirstCorrect(cs: seq<CheckRow>)
    ensures NewestFirst(SortNewestFirst(cs))
    ensures multiset(SortNewestFirst(cs)) == multiset(cs)
    decreases |cs|
  {
    if cs != [] {
      var init, last := cs[..|cs| - 1], cs[|cs| - 1];
      SortNewestFirstCorrect(init);
      InsertByTimeSorted(last, SortNewestFirst(init));
      SortNewestFirstStep(cs);
    }
  }

  /** One step of the insertion sort adds the last check to the multiset. */
  lemma SortNewestFirstStep(cs: seq<CheckRow>)
    requires cs != [] && multiset(SortNewestFirst(cs[..|cs| - 1])) == multiset(cs[..|cs| - 1])
    ensures multiset(SortNewestFirst(cs)) == multiset(cs)
  {
    MultisetOfInit(cs);
  }

  lemma MultisetOfInit(cs: seq<CheckRow>)
    requires cs != []
    ensures multiset(cs) == multiset(cs[..|cs| - 1]) + multiset{cs[|cs| - 1]}
  {
    assert cs == cs[..|cs| - 1] + [cs[|cs| - 1]];
  }

  /** The history holds only the service's checks, newest first, as many as
      the limit allows; every check of the service in the table is shown or
      is no newer than any check shown, and all of them are shown when the
      limit allows. */
  lemma HistoryCorrect(checks: seq<CheckRow>, serviceId: int, limit: nat)
    ensures var h := History(checks, serviceId, limit);
      var all := ChecksOf(checks, serviceId);
      NewestFirst(h) &&
      (forall c :: c in h ==> c.serviceId == serviceId) &&
      |h| == (if limit < CountChecks(checks, serviceId) then limit else CountChecks(checks, serviceId)) &&
      multiset(h) <= multiset(all)
    ensures var h := History(checks, serviceId, limit);
      forall c :: c in checks && c.serviceId == serviceId ==>
        c in h || forall i :: 0 <= i < |h| ==> c.checkedAt <= h[i].checkedAt
    ensures CountChecks(checks, serviceId) <= limit ==>
      forall c :: c in checks && c.serviceId == serviceId ==> c in History(checks, serviceId, limit)
    ensures var sorted := SortNewestFirst(ChecksOf(checks, serviceId));
      forall i, j :: 0 <= i < |History(checks, serviceId, limit)| <= j < |sorted| ==>
        sorted[j].checkedAt <= History(checks, serviceId, limit)[i].checkedAt
  {
    var all := ChecksOf(checks, serviceId);
    var sorted := SortNewestFirst(all);
    SortNewestFirstCorrect(all);
    NewestPrefix(sorted, limit);
    HistoryOfService(checks, serviceId, limit);
    HistoryKeepsNewest(checks, serviceId, limit);
  }

  /** Every check the history shows belongs to the service. */
  lemma HistoryOfService(checks: seq<CheckRow>, serviceId: int, limit: nat)
    ensures forall c :: c in History(checks, serviceId, limit) ==> c.serviceId == serviceId
  {
    var all := ChecksOf(checks, serviceId);
    var sorted := SortNewestFirst(all);
    SortNewestFirstCorrect(all);
    NewestPrefix(sorted, limit);
    var h := Take(sorted, limit);
    forall c | c in h
      ensures c.serviceId == serviceId
    {
      assert c in multiset(h);
      assert c in multiset(all);
    }
  }

  /** The clauses of HistoryCorrect about the table's own rows. */
  lemma HistoryKeepsNewest(checks: seq<CheckRow>, serviceId: int, limit: nat)
    ensures var h := History(checks, serviceId, limit);
      forall c :: c in checks && c.serviceId == serviceId ==>
        c in h || forall i :: 0 <= i < |h| ==> c.checkedAt <= h[i].checkedAt
    ensures CountChecks(checks, serviceId) <= limit ==>
      forall c :: c in checks && c.serviceId == serviceId ==> c in History(checks, serviceId, limit)
  {
    var all := ChecksOf(checks, serviceId);
    var sorted := SortNewestFirst(all);
    SortNewestFirstCorrect(all);
    var h := Take(sorted, limit);
    forall c | c in checks && c.serviceId == serviceId
      ensures c in sorted
    {
      assert c in all;
      assert c in multiset(sorted);
    }
    forall c | c in checks && c.serviceId == serviceId && c !in h
      ensures forall i :: 0 <= i < |h| ==> c.checkedAt <= h[i].checkedAt
    {
      PrefixLeavesOlder(sorted, limit, c);
    }
  }

  /** A check of a newest-first list that the first n leave out is no newer
      than any of them. */
  lemma PrefixLeavesOlder(sorted: seq<CheckRow>, n: nat, c: CheckRow)
    requires NewestFirst(sorted) && c in sorted && c !in Take(sorted, n)
    ensures forall i :: 0 <= i < |Take(sorted, n)| ==> c.checkedAt <= Take(sorted, n)[i].checkedAt
  {
    var h := Take(sorted, n);
    var j :| 0 <= j < |sorted| && sorted[j] == c;
  }

  /** The first n of a newest-first list are newest first, come from the
      list, and are no older than any of the rest. */
  lemma NewestPrefix(sorted: seq<CheckRow>, n: nat)
    requires NewestFirst(sorted)
    ensures NewestFirst(Take(sorted, n))
    ensures multiset(Take(sorted, n)) <= multiset(sorted)
    ensures forall i, j :: 0 <= i < |Take(sorted, n)| <= j < |sorted| ==> sorted[j].checkedAt <= Take(sorted, n)[i].checkedAt
  {
    var h := Take(sorted, n);
    assert sorted == h + sorted[|h|..];
    assert multiset(sorted) == multiset(h) + multiset(sorted[|h|..]);
  }

  // -----------------------------------------------------------------------
  // Category listing
  // -----------------------------------------------------------------------

  /** The listing's fixed parts: the services with their newest check,
      their terminal and branch, restricted to one category. */
  const CATEGORY_SELECT := "SELECT s.*, b.name as branch_name, sc.* FROM sys_services s LEFT JOIN pos_terminals t LEFT JOIN sys_branches b LEFT JOIN latest checks sc WHERE s.category = "
  const BRANCH_FILTER := " AND t.branch_id = "
  const ORDER_BY_NAME := " ORDER BY s.name"

  /** The statement `getServicesByCategory` sends: the branch filter is
      added only for the `terminales` category with a truthy branch id. */
  function CategoryQueryOf(category: string, branchId: Option<int>): (q: Query)
    ensures Bound(q)
    ensures category == "terminales" && TruthyId(branchId) ==>
      Render(q.tokens) == CATEGORY_SELECT + "?" + BRANCH_FILTER + "?" + ORDER_BY_NAME &&
      q.params == [SqlText(category), SqlInt(branchId.value)]
    ensures !(category == "terminales" && TruthyId(branchId)) ==>
      Render(q.tokens) == CATEGORY_SELECT + "?" + ORDER_BY_NAME && q.params == [SqlText(category)]
  {
    var base := AddBound(Fixed(""), CATEGORY_SELECT, SqlText(category));
    BoundPieces(CATEGORY_SELECT, BRANCH_FILTER, ORDER_BY_NAME, SqlText(category), SqlInt(if branchId.Some? then branchId.value else 0));
    var filtered := if category == "terminales" && TruthyId(branchId)
                    then AddBound(base, BRANCH_FILTER, SqlInt(branchId.value)) else base;
    AddText(filtered, ORDER_BY_NAME)
  }

  /** How a statement of one or two bound pieces and a closing text reads. */
  lemma BoundPieces(first: string, second: string, closing: string, v: SqlValue, w: SqlValue)
    ensures var q := AddBound(Fixed(""), first, v);
      Render(AddText(q, closing).tokens) == first + "?" + closing &&
      Render(AddText(AddBound(q, second, w), closing).tokens) == first + "?" + second + "?" + closing
  {
    assert "" + first == first;
  }

  /** `getServicesByCategory` grows the statement piece by piece. */
  method CategoryQuery(category: string, branchId: Option<int>) returns (q: Query)
    ensures q == CategoryQueryOf(category, branchId)
  {
    q := AddBound(Fixed(""), CATEGORY_SELECT, SqlText(category));
    if category == "terminales" && branchId.Some? && branchId.value != 0 {
      q := AddBound(q, BRANCH_FILTER, SqlInt(branchId.value));
    }
    q := AddText(q, ORDER_BY_NAME);
  }

  // -----------------------------------------------------------------------
  // Linking terminals as services
  // -----------------------------------------------------------------------

  /** `SELECT * FROM pos_terminals WHERE branch_id = ? AND is_active = 1` */
  function ActiveOfBranch(table: seq<PosTerminal>, branchId: int): (r: seq<PosTerminal>)
    ensures forall t :: t in r <==> t in table && t.branchId == branchId && t.isActive
  {
    if table == [] then []
    else
      var rest := ActiveOfBranch(table[1..], branchId);
      assert forall t :: t in table <==> t == table[0] || t in table[1..];
      if table[0].branchId == branchId && table[0].isActive then [table[0]] + rest else rest
  }

  predicate HasLink(services: map<int, ServiceRow>, terminalId: int) {
    exists k :: k in services && services[k].terminalId == Some(terminalId)
  }

  /** The service created for a terminal without one. */
  function NewLink(t: PosTerminal, userId: int): ServiceRow {
    ServiceRow(t.name, t.ipAddress, "ip", "terminales", Some(t.id), Some("Terminal POS - " + t.name),
               Some(1), Some(userId), None)
  }

  /** An existing link refreshed from its terminal and reactivated. */
  function Relinked(s: ServiceRow, t: PosTerminal, userId: int): ServiceRow {
    s.(name := t.name, host := t.ipAddress, isActive := Some(1), updatedBy := Some(userId))
  }

  /** `UPDATE sys_services SET ... WHERE terminal_id = ?`: every service
      linked to the terminal is refreshed; the others are kept. */
  function RelinkAll(services: map<int, ServiceRow>, t: PosTerminal, userId: int): (r: map<int, ServiceRow>)
    ensures r.Keys == services.Keys
    ensures forall j :: j in services ==>
      r[j] == if services[j].terminalId == Some(t.id) then Relinked(services[j], t, userId) else services[j]
  {
    map j | j in services ::
      if services[j].terminalId == Some(t.id) then Relinked(services[j], t, userId) else services[j]
  }

  datatype Store = Store(services: map<int, ServiceRow>, nextId: int)

  /** Every id in use is below the next auto-increment value. */
  predicate Fresh(st: Store) {
    forall k :: k in st.services ==> k < st.nextId
  }

  /** One terminal of the loop: insert a link when there is none, otherwise
      update every service linked to it. */
  function SyncOne(st: Store, t: PosTerminal, userId: int): (r: Store)
    ensures Fresh(st) ==> Fresh(r)
    ensures st.services.Keys <= r.services.Keys
    ensures HasLink(r.services, t.id)
  {
    if !HasLink(st.services, t.id) then
      var updated := st.services[st.nextId := NewLink(t, userId)];
      assert updated[st.nextId].terminalId == Some(t.id);
      Store(updated, st.nextId + 1)
    else
      var k :| k in st.services && st.services[k].terminalId == Some(t.id);
      var updated := RelinkAll(st.services, t, userId);
      assert updated[k].terminalId == Some(t.id);
      Store(updated, st.nextId)
  }

  function SyncAll(st: Store, ts: seq<PosTerminal>, userId: int): Store
    decreases |ts|
  {
    if ts == [] then st else SyncOne(SyncAll(st, ts[..|ts| - 1], userId), ts[|ts| - 1], userId)
  }

  lemma SyncPrefix(st: Store, ts: seq<PosTerminal>, i: nat, userId: int)
    requires i < |ts|
    ensures SyncAll(st, ts[..i + 1], userId) == SyncOne(SyncAll(st, ts[..i], userId), ts[i], userId)
  {
    assert ts[..i + 1][..i] == ts[..i];
  }

  predicate LinkedTo(s: ServiceRow, ts: seq<PosTerminal>) {
    s.terminalId.Some? && exists t :: t in ts && t.id == s.terminalId.value
  }

  /** After the sync every terminal processed has a linked service, no row
      is lost, and ids stay fresh. */
  lemma {:induction false} SyncLinksAll(st: Store, ts: seq<PosTerminal>, userId: int)
    requires Fresh(st)
    ensures Fresh(SyncAll(st, ts, userId))
    ensures st.services.Keys <= SyncAll(st, ts, userId).services.Keys
    ensures forall t :: t in ts ==> HasLink(SyncAll(st, ts, userId).services, t.id)
    decreases |ts|
  {
    if ts != [] {
      var init := ts[..|ts| - 1];
      SyncLinksAll(st, init, userId);
      var mid := SyncAll(st, init, userId);
      forall t | t in ts
        ensures HasLink(SyncAll(st, ts, userId).services, t.id)
      {
        if t != ts[|ts| - 1] {
          assert t in init;
          LinkPersists(mid, ts[|ts| - 1], userId, t.id);
        }
      }
    }
  }

  lemma LinkPersists(st: Store, t: PosTerminal, userId: int, id: int)
    requires Fresh(st) && HasLink(st.services, id)
    ensures HasLink(SyncOne(st, t, userId).services, id)
  {
    var k :| k in st.services && st.services[k].terminalId == Some(id);
    var r := SyncOne(st, t, userId);
    if HasLink(st.services, t.id) {
      assert r.services[k].terminalId == st.services[k].terminalId;
    } else {
      assert r.services[k] == st.services[k];
    }
  }

  /** A service that is not linked to any processed terminal is left as it
      was, provided ids are fresh (so an insert never reuses its id). */
  lemma {:induction false} SyncLeavesOthers(st: Store, ts: seq<PosTerminal>, userId: int)
    requires Fresh(st)
    ensures forall k :: k in st.services && !LinkedTo(st.services[k], ts) ==>
      k in SyncAll(st, ts, userId).services && SyncAll(st, ts, userId).services[k] == st.services[k]
    decreases |ts|
  {
    if ts != [] {
      var init := ts[..|ts| - 1];
      SyncLeavesOthers(st, init, userId);
      SyncLinksAll(st, init, userId);
      var mid := SyncAll(st, init, userId);
      var last := ts[|ts| - 1];
      forall k | k in st.services && !LinkedTo(st.services[k], ts)
        ensures k in SyncAll(st, ts, userId).services && SyncAll(st, ts, userId).services[k] == st.services[k]
      {
        assert forall t :: t in init ==> t in ts;
        assert last in ts;
        SyncOneLeaves(mid, last, userId, k);
      }
    }
  }

  /** One step leaves a service that is not linked to its terminal alone. */
  lemma SyncOneLeaves(st: Store, t: PosTerminal, userId: int, k: int)
    requires Fresh(st) && k in st.services && st.services[k].terminalId != Some(t.id)
    ensures k in SyncOne(st, t, userId).services && SyncOne(st, t, userId).services[k] == st.services[k]
  {
  }

  /** Every service the sync creates is an `ip` service of category
      `terminales`, active and linked to one of the processed terminals. */
  lemma {:induction false} SyncCreatesTerminalServices(st: Store, ts: seq<PosTerminal>, userId: int)
    requires Fresh(st)
    ensures var r := SyncAll(st, ts, userId).services;
      forall k :: k in r && k !in st.services ==>
        r[k].kind == "ip" && r[k].category == "terminales" && r[k].isActive == Some(1) && LinkedTo(r[k], ts)
    decreases |ts|
  {
    if ts != [] {
      var init := ts[..|ts| - 1];
      SyncCreatesTerminalServices(st, init, userId);
      SyncLinksAll(st, init, userId);
      var mid := SyncAll(st, init, userId);
      var last := ts[|ts| - 1];
      var r := SyncAll(st, ts, userId).services;
      forall k | k in r && k !in st.services
        ensures r[k].kind == "ip" && r[k].category == "terminales" && r[k].isActive == Some(1) && LinkedTo(r[k], ts)
      {
        if k in mid.services {
          SyncOneKeepsKind(mid, last, userId, k);
          assert LinkedTo(mid.services[k], init);
          var t :| t in init && t.id == mid.services[k].terminalId.value;
          assert t in ts;
        } else {
          assert r[k] == NewLink(last, userId);
          assert last in ts;
        }
      }
    }
  }

  /** One sync step keeps an existing service's kind, category and link,
      and at most reactivates it. */
  lemma SyncOneKeepsKind(st: Store, t: PosTerminal, userId: int, k: int)
    requires Fresh(st) && k in st.services
    ensures var r := SyncOne(st, t, userId).services;
      k in r && r[k].kind == st.services[k].kind && r[k].category == st.services[k].category &&
      r[k].terminalId == st.services[k].terminalId &&
      (r[k].isActive == st.services[k].isActive || r[k].isActive == Some(1))
  {
  }

  /** Every service linked to a processed terminal ends up active. */
  lemma {:induction false} SyncReactivates(st: Store, ts: seq<PosTerminal>, userId: int)
    requires Fresh(st)
    ensures var r := SyncAll(st, ts, userId).services;
      forall k :: k in r && LinkedTo(r[k], ts) ==> r[k].isActive == Some(1)
    decreases |ts|
  {
    if ts != [] {
      var init := ts[..|ts| - 1];
      SyncReactivates(st, init, userId);
      SyncLinksAll(st, init, userId);
      var mid := SyncAll(st, init, userId);
      var last := ts[|ts| - 1];
      var r := SyncAll(st, ts, userId).services;
      forall k | k in r && LinkedTo(r[k], ts)
        ensures r[k].isActive == Some(1)
      {
        if k in mid.services && r[k] == mid.services[k] {
          var t :| t in ts && t.id == r[k].terminalId.value;
          if t != last {
            assert t in init;
          } else {
            assert HasLink(mid.services, last.id);
          }
        }
      }
    }
  }

  // -----------------------------------------------------------------------
  // The store, updated in place
  // -----------------------------------------------------------------------

  class ServiceStore {
    var services: map<int, ServiceRow>
    var checks: seq<CheckRow>
    var nextId: int

    ghost predicate Valid()
      reads this
    {
      Fresh(Store(services, nextId))
    }

    constructor()
      ensures Valid() && services == map[] && checks == []
    {
      services := map[];
      checks := [];
      nextId := 1;
    }

    /** `createService`: the category defaults to `servicios`, the service
        is active, and the new id is returned. */
    method CreateService(data: ServiceInput, createdBy: int) returns (id: int)
      requires Valid()
      modifies this
      ensures Valid() && id !in old(services) && checks == old(checks)
      ensures services == old(services)[id := ServiceRow(data.name, data.host, data.kind, CategoryOr(data.category),
                                                         None, data.description, Some(1), Some(createdBy), None)]
    {
      id := nextId;
      services := services[id := ServiceRow(data.name, data.host, data.kind, CategoryOr(data.category),
                                            None, data.description, Some(1), Some(createdBy), None)];
      nextId := nextId + 1;
    }

    /** `updateService`: the category defaults to `servicios`; `is_active`
        is written as given.  An unknown id changes nothing. */
    method UpdateService(id: int, data: ServiceInput, updatedBy: int)
      requires Valid()
      modifies this
      ensures Valid() && checks == old(checks) && nextId == old(nextId)
      ensures id in old(services) ==> services == old(services)[id := old(services)[id].(
        name := data.name, host := data.host, kind := data.kind, category := CategoryOr(data.category),
        description := data.description, updatedBy := Some(updatedBy), isActive := data.isActive)]
      ensures id !in old(services) ==> services == old(services)
    {
      if id in services {
        services := services[id := services[id].(
          name := data.name, host := data.host, kind := data.kind, category := CategoryOr(data.category),
          description := data.description, updatedBy := Some(updatedBy), isActive := data.isActive)];
      }
    }

    /** `pingServiceAndSave`: an unknown id fails before anything is
        written; otherwise the ping of the service's host is appended to the
        history and returned unchanged.  `ping` stands for the ping wrapper
        and `now` for the insertion time. */
    method PingServiceAndSave(serviceId: int, ping: string -> PingResult, now: int) returns (r: Result<PingResult>)
      requires Valid()
      modifies this
      ensures Valid() && services == old(services) && nextId == old(nextId)
      ensures r == PingOutcome(old(services), serviceId, ping)
      ensures r.Failure? ==> checks == old(checks)
      ensures r.Success? ==> checks == old(checks) + [CheckOf(serviceId, r.value, now)]
    {
      if serviceId !in services {
        return Failure(NOT_FOUND);
      }
      var result := ping(services[serviceId].host);
      checks := checks + [CheckOf(serviceId, result, now)];
      r := Success(result);
    }

    /** `syncTerminalsAsServices`: for each active terminal of the branch,
        in table order, insert or update its linked service. */
    method SyncTerminalsAsServices(branchId: int, userId: int, table: seq<PosTerminal>)
      requires Valid()
      modifies this
      ensures Valid() && checks == old(checks)
      ensures Store(services, nextId) == SyncAll(Store(old(services), old(nextId)), ActiveOfBranch(table, branchId), userId)
    {
      var terminals := ActiveOfBranch(table, branchId);
      var st := Store(services, nextId);
      ghost var start := st;
      var i := 0;
      while i < |terminals|
        invariant 0 <= i <= |terminals|
        invariant st == SyncAll(start, terminals[..i], userId)
        invariant Fresh(st)
        modifies {}
      {
        var t := terminals[i];
        SyncPrefix(start, terminals, i, userId);
        if !HasLink(st.services, t.id) {
          st := Store(st.services[st.nextId := NewLink(t, userId)], st.nextId + 1);
        } else {
          st := Store(RelinkAll(st.services, t, userId), st.nextId);
        }
        i := i + 1;
      }
      assert terminals[..i] == terminals;
      services, nextId := st.services, st.nextId;
    }
  }
}
