/** The request handlers of the services module: the batch ping, the
    history limit and the branch a category listing is resolved to. */
module ServicesController {
  import opened Wrappers
  import opened Text
  import opened Js
  import ServicesService
  import SqlQuery

  /** What a handler sends: a JSON body, or an error status with its
      message. */
  datatype Reply<T> = Ok(body: T) | Status(code: int, error: string)

  const IDS_REQUIRED := "Se requiere un array de IDs de servicios"

  /** The sequential reading of `Promise.all(ids.map(ping))`: every result
      in input order, or the error of the first id (by position) that
      fails. */
  function PingAll(ids: seq<int>, ping: int -> Result<ServicesService.PingResult>): (r: Result<seq<ServicesService.PingResult>>)
    ensures r.Success? ==> |r.value| == |ids|
    ensures r.Success? ==> forall i :: 0 <= i < |ids| ==> ping(ids[i]) == Success(r.value[i])
    ensures r.Failure? ==> exists i :: 0 <= i < |ids| && ping(ids[i]) == Failure(r.error)
    decreases |ids|
  {
    if ids == [] then Success([])
    else
      var first := ping(ids[0]);
      if first.Failure? then Failure(first.error)
      else
        var rest := PingAll(ids[1..], ping);
        if rest.Failure? then
          var i :| 0 <= i < |ids[1..]| && ping(ids[1..][i]) == Failure(rest.error);
          assert ping(ids[i + 1]) == Failure(rest.error);
          Failure(rest.error)
        else
          assert forall i :: 1 <= i < |ids| ==> ids[i] == ids[1..][i - 1];
          Success([first.value] + rest.value)
  }

  /** `pingBatch`: `serviceIds` is `None` when the body field is not an
      array.  A missing or empty list is a 400; any failing ping turns the
      whole batch into a 500 with its message. */
  function PingBatch(serviceIds: Option<seq<int>>, ping: int -> Result<ServicesService.PingResult>): (r: Reply<seq<ServicesService.PingResult>>)
    ensures serviceIds.None? || serviceIds.value == [] <==> r == Status(400, IDS_REQUIRED)
    ensures r.Status? && r.code == 500 ==> serviceIds.Some? && exists i :: 0 <= i < |serviceIds.value| && ping(serviceIds.value[i]) == Failure(r.error)
    ensures r.Ok? ==> serviceIds.Some? && |r.body| == |serviceIds.value|
    ensures r.Ok? ==> forall i :: 0 <= i < |r.body| ==> ping(serviceIds.value[i]) == Success(r.body[i])
  {
    if serviceIds.None? || serviceIds.value == [] then Status(400, IDS_REQUIRED)
    else
      var results := PingAll(serviceIds.value, ping);
      if results.Failure? then Status(500, results.error) else Ok(results.value)
  }

  /** The batch succeeds exactly when every id pings successfully. */
  lemma {:induction false} PingAllSucceedsIff(ids: seq<int>, ping: int -> Result<ServicesService.PingResult>)
    ensures PingAll(ids, ping).Success? <==> forall i :: 0 <= i < |ids| ==> ping(ids[i]).Success?
    decreases |ids|
  {
    if ids != [] {
      PingAllSucceedsIff(ids[1..], ping);
      if forall i :: 0 <= i < |ids| ==> ping(ids[i]).Success? {
        assert forall i :: 0 <= i < |ids[1..]| ==> ping(ids[1..][i]).Success? by {
          forall i | 0 <= i < |ids[1..]|
            ensures ping(ids[1..][i]).Success?
          {
            assert ids[1..][i] == ids[i + 1];
          }
        }
      }
    }
  }

  /** With the store's own ping, a batch of known ids yields one result per
      id, each the ping of that service's host; one unknown id makes the
      batch a 500 with the not-found message of the first such id. */
  lemma BatchOfKnownIds(ids: seq<int>, services: map<int, ServicesService.ServiceRow>, ping: string -> ServicesService.PingResult)
    requires ids != [] && forall i :: 0 <= i < |ids| ==> ids[i] in services
    ensures var r := PingBatch(Some(ids), id => ServicesService.PingOutcome(services, id, ping));
      r.Ok? && |r.body| == |ids| && forall i :: 0 <= i < |ids| ==> r.body[i] == ping(services[ids[i]].host)
  {
    var outcome := id => ServicesService.PingOutcome(services, id, ping);
    PingAllSucceedsIff(ids, outcome);
  }

  lemma BatchWithUnknownId(ids: seq<int>, services: map<int, ServicesService.ServiceRow>, ping: string -> ServicesService.PingResult, k: nat)
    requires k < |ids| && ids[k] !in services
    ensures PingBatch(Some(ids), id => ServicesService.PingOutcome(services, id, ping)) == Status(500, ServicesService.NOT_FOUND)
  {
    var outcome := id => ServicesService.PingOutcome(services, id, ping);
    PingAllSucceedsIff(ids, outcome);
    assert !outcome(ids[k]).Success?;
  }

  // -----------------------------------------------------------------------
  // History limit
  // -----------------------------------------------------------------------

  /** `req.query.limit ? Number(req.query.limit) : 50` */
  function HistoryLimit(limit: Option<string>): (r: JsValue)
    ensures limit.None? || limit.value == "" ==> r == JNum(ServicesService.DEFAULT_HISTORY_LIMIT)
    ensures r.JNum? || r == JNaN
    ensures limit.Some? && limit.value != "" && AllDigits(limit.value) ==> r == JNum(DigitsValue(limit.value))
  {
    if limit.Some? && limit.value != "" then ToNumber(limit.value) else JNum(ServicesService.DEFAULT_HISTORY_LIMIT)
  }

  // -----------------------------------------------------------------------
  // Category listing: branch resolution
  // -----------------------------------------------------------------------

  /** The resolved branch (`None` stands for `undefined` and for the `NaN`
      of an unparsable query value; both are falsy) and whether the
      terminals of that branch are linked as services first. */
  datatype CategoryPlan = CategoryPlan(branchId: Option<int>, sync: bool)

  /** `getByCategory`: only the `terminales` category resolves a branch; an
      admin who names one in the query gets it, anyone else gets their own. */
  function ResolveBranch(category: string, role: string, queryBranch: Option<string>, userBranch: Option<int>): (r: Option<int>)
    ensures category != "terminales" ==> r == None
    ensures category == "terminales" && role == "admin" && queryBranch.Some? && queryBranch.value != "" ==>
      r == ParseInt(queryBranch.value)
    ensures category == "terminales" && !(role == "admin" && queryBranch.Some? && queryBranch.value != "") ==>
      r == userBranch
  {
    if category != "terminales" then None
    else if role == "admin" && queryBranch.Some? && queryBranch.value != "" then ParseInt(queryBranch.value)
    else userBranch
  }

  function PlanCategory(category: string, role: string, queryBranch: Option<string>, userBranch: Option<int>): (p: CategoryPlan)
    ensures p.branchId == ResolveBranch(category, role, queryBranch, userBranch)
    ensures p.sync <==> category == "terminales" && TruthyId(p.branchId)
  {
    var branchId := ResolveBranch(category, role, queryBranch, userBranch);
    CategoryPlan(branchId, category == "terminales" && TruthyId(branchId))
  }

  /** The terminals are synced exactly when the listing that follows is
      filtered by branch, and then for that same branch: a listing of
      terminals never filters by a branch whose terminals were not synced. */
  lemma SyncMatchesFilter(category: string, role: string, queryBranch: Option<string>, userBranch: Option<int>)
    ensures var p := PlanCategory(category, role, queryBranch, userBranch);
      var q := ServicesService.CategoryQueryOf(category, p.branchId);
      p.sync <==> |q.params| == 2
    ensures var p := PlanCategory(category, role, queryBranch, userBranch);
      p.sync ==> ServicesService.CategoryQueryOf(category, p.branchId).params[1] == SqlQuery.SqlInt(p.branchId.value)
  {
  }

  /** An admin's query parameter decides the branch; a non-admin's own
      branch is used whatever the query says. */
  lemma NonAdminUsesOwnBranch(role: string, queryBranch: Option<string>, other: Option<string>, userBranch: Option<int>)
    requires role != "admin"
    ensures ResolveBranch("terminales", role, queryBranch, userBranch) == ResolveBranch("terminales", role, other, userBranch) == userBranch
  {
  }

  lemma AdminChoosesBranch(digits: string, userBranch: Option<int>)
    requires digits != [] && AllDigits(digits)
    ensures ResolveBranch("terminales", "admin", Some(digits), userBranch) == Some(DigitsValue(digits))
  {
  }
}
