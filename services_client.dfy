/** The services monitoring page: card status, the counters above the
    grid, the per-service ping guard, the save form and the grid layout. */
module ServicesClient {
  import opened Wrappers
  import ServicesService

  /** A latency as the page can hold it: null as loaded for a service never
      measured, undefined after a ping whose average was unknown (the key is
      absent from the answer), or a number of ms. */
  datatype Latency = NullMs | UndefinedMs | Ms(value: real)

  /** What a ping's `avg` becomes in the page: an absent average is undefined. */
  function LatencyOf(avg: Option<real>): (l: Latency)
    ensures l == UndefinedMs <==> avg.None?
    ensures avg.Some? ==> l == Ms(avg.value)
  {
    if avg.Some? then Ms(avg.value) else UndefinedMs
  }

  /** A service as the page holds it: the latest check's status (`1` alive,
      `0` down, `None` for null), its latency and when it was taken. */
  datatype ServiceView = ServiceView(id: int, lastStatus: Option<int>, lastResponseTime: Latency,
                                     lastCheckedAt: Option<string>)

  datatype Status = StatusUnknown | StatusUp | StatusSlow | StatusDown

  predicate Checked(s: ServiceView) {
    s.lastCheckedAt.Some? && s.lastCheckedAt.value != ""
  }

  /** `last_response_time || 0`: null and undefined both read as 0. */
  function CardLatency(s: ServiceView): real {
    match s.lastResponseTime
    case Ms(v) => v
    case _ => 0.0
  }

  /** `last_response_time < 100`: null converts to 0 and passes, undefined
      converts to NaN and fails. */
  predicate BelowHundred(s: ServiceView) {
    match s.lastResponseTime
    case NullMs => true
    case UndefinedMs => false
    case Ms(v) => v < 100.0
  }

  /** `getServiceStatus` */
  function GetServiceStatus(s: ServiceView): (r: Status)
    ensures r == StatusUnknown <==> !Checked(s)
    ensures r == StatusUp <==> Checked(s) && s.lastStatus == Some(1) && CardLatency(s) < 100.0
    ensures r == StatusSlow <==> Checked(s) && s.lastStatus == Some(1) && CardLatency(s) >= 100.0
    ensures r == StatusDown <==> Checked(s) && s.lastStatus != Some(1)
  {
    if !Checked(s) then StatusUnknown
    else if s.lastStatus == Some(1) then (if CardLatency(s) < 100.0 then StatusUp else StatusSlow)
    else StatusDown
  }

  // -----------------------------------------------------------------------
  // Counters
  // -----------------------------------------------------------------------

  predicate CountsOnline(s: ServiceView) { s.lastStatus == Some(1) && BelowHundred(s) }
  predicate CountsOffline(s: ServiceView) { s.lastStatus == Some(0) }

  /** `list.filter(p).length` */
  function Count(list: seq<ServiceView>, p: ServiceView -> bool): (n: nat)
    ensures n <= |list|
  {
    if list == [] then 0 else Count(list[..|list| - 1], p) + (if p(list[|list| - 1]) then 1 else 0)
  }

  function CountStatus(list: seq<ServiceView>, st: Status): (n: nat)
    ensures n <= |list|
  {
    if list == [] then 0 else CountStatus(list[..|list| - 1], st) + (if GetServiceStatus(list[|list| - 1]) == st then 1 else 0)
  }

  datatype Stats = Stats(total: nat, online: nat, offline: nat, unknown: nat)

  /** `updateStats` */
  function UpdateStats(list: seq<ServiceView>): (r: Stats)
    ensures r.total == |list| && r.online <= r.total && r.offline <= r.total && r.unknown <= r.total
  {
    Stats(|list|, Count(list, CountsOnline), Count(list, CountsOffline), Count(list, s => !Checked(s)))
  }

  /** A service whose status and check time come from the same latest
      check: it has a status of 0 or 1 exactly when it has been checked. */
  predicate Consistent(s: ServiceView) {
    (s.lastStatus.Some? <==> Checked(s)) && (s.lastStatus.Some? ==> s.lastStatus.value == 0 || s.lastStatus.value == 1)
  }

  /** When every service is consistent and no latency is undefined, the
      counters agree with the cards: online counts the green cards, offline
      the red ones, unknown the unchecked ones, and the slow cards are the
      rest. */
  lemma {:induction false} StatsMatchCards(list: seq<ServiceView>)
    requires forall i :: 0 <= i < |list| ==> Consistent(list[i]) && list[i].lastResponseTime != UndefinedMs
    ensures var st := UpdateStats(list);
      st.online == CountStatus(list, StatusUp) && st.offline == CountStatus(list, StatusDown) &&
      st.unknown == CountStatus(list, StatusUnknown) &&
      st.total == st.online + st.offline + st.unknown + CountStatus(list, StatusSlow)
    decreases |list|
  {
    if list != [] {
      var init := list[..|list| - 1];
      assert forall i :: 0 <= i < |init| ==> init[i] == list[i];
      StatsMatchCards(init);
      assert Consistent(list[|list| - 1]);
    }
  }

  /** An alive service whose latency is undefined shows a green card, yet
      the online counter leaves it out: the card and the counter disagree. */
  lemma UndefinedLatencyUncounted(s: ServiceView)
    requires Consistent(s) && s.lastStatus == Some(1) && s.lastResponseTime == UndefinedMs
    ensures GetServiceStatus(s) == StatusUp && CountStatus([s], StatusUp) == 1
    ensures UpdateStats([s]).online == 0
  {
  }

  // -----------------------------------------------------------------------
  // Grid
  // -----------------------------------------------------------------------

  datatype Panel = EmptyState | Card(serviceId: int) | AddCard

  /** `renderServicesGrid`: an empty list shows only the empty-state panel;
      otherwise one card per service, in order, then the add card. */
  function RenderServicesGrid(list: seq<ServiceView>): (r: seq<Panel>)
    ensures list == [] ==> r == [EmptyState]
    ensures list != [] ==> |r| == |list| + 1 && r[|list|] == AddCard
    ensures list != [] ==> forall i :: 0 <= i < |list| ==> r[i] == Card(list[i].id)
    ensures EmptyState in r <==> list == []
  {
    if list == [] then [EmptyState]
    else seq(|list|, i requires 0 <= i < |list| => Card(list[i].id)) + [AddCard]
  }

  // -----------------------------------------------------------------------
  // Save form
  // -----------------------------------------------------------------------

  /** The body the form posts. */
  datatype ServicePayload = ServicePayload(name: string, host: string, kind: string, description: string, isActive: int)

  datatype SaveAction = Warn(message: string) | Send(httpMethod: string, url: string, body: ServicePayload)

  const REQUIRED_FIELDS := "Complete los campos requeridos"

  /** `guardarServicio`: name and host are required; a non-empty hidden id
      makes it an update of that service. */
  function SaveService(id: string, name: string, host: string, kind: string, description: string, active: bool): (r: SaveAction)
    ensures r.Warn? <==> name == "" || host == ""
    ensures r.Warn? ==> r.message == REQUIRED_FIELDS
    ensures r.Send? ==> (r.httpMethod == "PUT" <==> id != "") && (r.httpMethod == "POST" <==> id == "")
    ensures r.Send? && id != "" ==> r.url == "/services/" + id
    ensures r.Send? && id == "" ==> r.url == "/services"
    ensures r.Send? ==> r.body == ServicePayload(name, host, kind, description, if active then 1 else 0)
  {
    var body := ServicePayload(name, host, kind, description, if active then 1 else 0);
    if name == "" || host == "" then Warn(REQUIRED_FIELDS)
    else if id != "" then Send("PUT", "/services/" + id, body)
    else Send("POST", "/services", body)
  }

  /** What the update handler reads from the posted body: the form has no
      category field. */
  function AsInput(p: ServicePayload): ServicesService.ServiceInput {
    ServicesService.ServiceInput(p.name, p.host, p.kind, None, Some(p.description), Some(p.isActive))
  }

  /** The form sends no category, so saving an existing service from it
      moves the service to `servicios`, also when it was a linked terminal
      of category `terminales`. */
  lemma EditMovesToServicios(id: string, name: string, host: string, kind: string, description: string, active: bool)
    requires id != "" && name != "" && host != ""
    ensures var r := SaveService(id, name, host, kind, description, active);
      r.Send? && ServicesService.CategoryOr(AsInput(r.body).category) == ServicesService.DEFAULT_CATEGORY
  {
  }

  // -----------------------------------------------------------------------
  // Ping guard
  // -----------------------------------------------------------------------

  /** The services list after a successful ping of `id`: the first entry
      with that id gets the new status, latency and check time. */
  function ApplyPing(list: seq<ServiceView>, id: int, p: ServicesService.PingResult, now: string): (r: seq<ServiceView>)
    ensures |r| == |list|
  {
    var i := FindIndex(list, id);
    if i < 0 then list
    else list[i := list[i].(lastStatus := Some(if p.alive then 1 else 0), lastResponseTime := LatencyOf(p.avg),
                            lastCheckedAt := Some(now))]
  }

  /** `list.findIndex(s => s.id === id)` */
  function FindIndex(list: seq<ServiceView>, id: int): (i: int)
    ensures -1 <= i < |list|
    ensures i >= 0 ==> list[i].id == id && forall j :: 0 <= j < i ==> list[j].id != id
    ensures i < 0 ==> forall j :: 0 <= j < |list| ==> list[j].id != id
  {
    if list == [] then -1
    else if list[0].id == id then 0
    else
      var k := FindIndex(list[1..], id);
      if k < 0 then -1 else k + 1
  }

  /** Only the first entry with the pinged id changes, and only its status,
      latency and check time. */
  lemma ApplyPingChangesOneEntry(list: seq<ServiceView>, id: int, p: ServicesService.PingResult, now: string)
    ensures var r := ApplyPing(list, id, p, now);
      forall j :: 0 <= j < |list| && j != FindIndex(list, id) ==> r[j] == list[j]
    ensures var r := ApplyPing(list, id, p, now); var i := FindIndex(list, id);
      i >= 0 ==> r[i].id == id && r[i].lastStatus == Some(if p.alive then 1 else 0) &&
                 r[i].lastResponseTime == LatencyOf(p.avg) && r[i].lastCheckedAt == Some(now)
    ensures (forall j :: 0 <= j < |list| ==> list[j].id != id) ==> ApplyPing(list, id, p, now) == list
  {
  }

  /** A pinged service that was unchecked is afterwards up, slow or down
      according to the ping, never unknown. */
  lemma PingedIsChecked(list: seq<ServiceView>, id: int, p: ServicesService.PingResult, now: string)
    requires now != "" && FindIndex(list, id) >= 0
    ensures var r := ApplyPing(list, id, p, now); var i := FindIndex(list, id);
      GetServiceStatus(r[i]) != StatusUnknown &&
      (GetServiceStatus(r[i]) == StatusDown <==> !p.alive)
  {
  }

  /** A ping that finds the host alive but reports no average leaves the
      service with a green card that the online counter does not count. */
  lemma PingWithoutAverage(list: seq<ServiceView>, id: int, p: ServicesService.PingResult, now: string)
    requires now != "" && FindIndex(list, id) >= 0 && p.alive && p.avg.None?
    ensures var r := ApplyPing(list, id, p, now); var i := FindIndex(list, id);
      GetServiceStatus(r[i]) == StatusUp && !CountsOnline(r[i])
  {
  }

  /** The page state `pingServiceAsync` works on.  The JavaScript function
      is split at its `await`: `BeginPing` runs up to the request,
      `FinishPing` when the answer (or a failure) arrives. */
  class ServicesPage {
    var services: seq<ServiceView>
    var pingInProgress: set<int>

    constructor(list: seq<ServiceView>)
      ensures services == list && pingInProgress == {}
    {
      services := list;
      pingInProgress := {};
    }

    /** A ping for an id already in progress is refused; otherwise the id is
        marked before the request goes out. */
    method BeginPing(id: int) returns (started: bool)
      modifies this
      ensures started <==> id !in old(pingInProgress)
      ensures pingInProgress == old(pingInProgress) + {id}
      ensures services == old(services)
    {
      if id in pingInProgress {
        return false;
      }
      pingInProgress := pingInProgress + {id};
      started := true;
    }

    /** Every outcome clears the mark; only a successful answer updates the
        service's entry.  `now` is the check time the page records. */
    method FinishPing(id: int, answer: Result<ServicesService.PingResult>, now: string)
      modifies this
      ensures pingInProgress == old(pingInProgress) - {id}
      ensures answer.Success? ==> services == ApplyPing(old(services), id, answer.value, now)
      ensures answer.Failure? ==> services == old(services)
    {
      if answer.Success? {
        var i := FindIndex(services, id);
        if i != -1 {
          var p := answer.value;
          services := services[i := services[i].(lastStatus := Some(if p.alive then 1 else 0),
                                                 lastResponseTime := LatencyOf(p.avg), lastCheckedAt := Some(now))];
        }
      }
      pingInProgress := pingInProgress - {id};
    }
  }
}
