/** `updateUserModules`: refreshes the session user's module list from the
    database when it has changed. */
module UpdateModulesMiddleware {
  import opened Wrappers
  import opened Entities
  import opened PermissionMiddleware

  /** The `hasChanged` test: same length and each list's elements all
      occur in the other. */
  function HasChanged(current: seq<string>, session: seq<string>): (r: bool)
    ensures !r <==> |current| == |session| && SetOf(current) == SetOf(session)
  {
    |current| != |session| ||
    !(forall m :: m in current ==> m in session) ||
    !(forall m :: m in session ==> m in current)
  }

  /** A reordering of the same list is not a change. */
  lemma PermutationUnchanged(current: seq<string>, session: seq<string>)
    requires multiset(current) == multiset(session)
    ensures !HasChanged(current, session)
  {
    assert |current| == |multiset(current)| == |multiset(session)| == |session|;
    forall m | m in current ensures m in session {
      assert m in multiset(current);
    }
    forall m | m in session ensures m in current {
      assert m in multiset(session);
    }
  }

  /** For lists without repetitions the test is exact: unchanged means the
      same modules. */
  lemma DistinctListsCompareAsSets(current: seq<string>, session: seq<string>)
    requires Distinct(current) && Distinct(session)
    ensures !HasChanged(current, session) <==> SetOf(current) == SetOf(session)
  {
    DistinctCardinality(current);
    DistinctCardinality(session);
  }

  /** With repetitions the test is not multiset equality: these two lists
      hold different counts and still compare as unchanged. */
  lemma RepetitionsGoUnnoticed()
    ensures !HasChanged(["a", "a", "b"], ["a", "b", "b"])
    ensures multiset(["a", "a", "b"]) != multiset(["a", "b", "b"])
  {
    var x: seq<string> := ["a", "a", "b"];
    var y: seq<string> := ["a", "b", "b"];
    assert SetOf(x) == {"a", "b"} == SetOf(y);
    assert multiset(x)["a"] == 2;
    assert multiset(y)["a"] == 1;
  }

  datatype Outcome =
    | GoLogin
    | Continue(user: SessionUser, reissued: bool)

  /** `currentUser.modules || []` */
  function SessionModules(u: SessionUser): seq<string> {
    u.modules.GetOr([])
  }

  /** The new token's payload: the identity fields are kept and the module
      list is the database one. */
  function Payload(u: SessionUser, modules: seq<string>): (p: SessionUser)
    ensures p.id == u.id && p.username == u.username && p.role == u.role
    ensures p.branchId == u.branchId && p.branchName == u.branchName
    ensures p.modules == Some(modules)
  {
    SessionUser(u.id, u.username, u.role, u.branchId, u.branchName, Some(modules))
  }

  /** `dbModules` is what `getUserModules` returned, or its failure. */
  function UpdateUserModules(user: Option<SessionUser>, dbModules: Result<seq<string>>): (r: Outcome)
    ensures r == GoLogin <==> user.None?
    ensures user.Some? && dbModules.Failure? ==> r == Continue(user.value, false)
    ensures user.Some? && dbModules.Success? ==>
      r.Continue? && (r.reissued <==> HasChanged(dbModules.value, SessionModules(user.value)))
    ensures r.Continue? && !r.reissued ==> r.user == user.value
    ensures r.Continue? && r.reissued ==> r.user == Payload(user.value, dbModules.value)
  {
    if user.None? then GoLogin
    else if dbModules.Failure? then Continue(user.value, false)
    else if HasChanged(dbModules.value, SessionModules(user.value)) then
      Continue(Payload(user.value, dbModules.value), true)
    else Continue(user.value, false)
  }

  /** Running the middleware again with the same database list changes
      nothing more: the refreshed user is up to date. */
  lemma RefreshIsIdempotent(u: SessionUser, db: seq<string>)
    ensures var r := UpdateUserModules(Some(u), Success(db));
      UpdateUserModules(Some(r.user), Success(db)) == Continue(r.user, false)
  {
  }

  /** After the middleware, the module guard agrees with the database for a
      non-admin, whether the session was refreshed or already matched (a
      session without a list matches only an empty database list). */
  lemma GuardSeesDatabaseModules(u: SessionUser, db: seq<string>, code: string, xhr: bool, accept: Option<string>)
    requires u.role != "admin"
    ensures RequireModule(code, Some(UpdateUserModules(Some(u), Success(db)).user), xhr, accept) == Next <==> code in db
  {
    var r := UpdateUserModules(Some(u), Success(db));
    if !r.reissued {
      assert code in db <==> code in SetOf(db);
      assert code in SessionModules(u) <==> code in SetOf(SessionModules(u));
    }
  }
}
