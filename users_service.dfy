/** User creation as a transaction on one pooled connection, and the
    statement `updateUser` builds.  `hash` stands for bcrypt. */
module UsersService {
  import opened Wrappers
  import opened Text
  import opened Js
  import opened SqlQuery

  datatype UserInput = UserInput(username: string, role: string, branchId: Option<int>)

  /** What happens on the connection, in order. */
  datatype Step =
    | Begin
    | InsertUser(username: string, passwordHash: string, role: string, branchId: int, createdBy: int)
    | InsertModules(rows: seq<(int, string)>)
    | Commit
    | Rollback
    | Release

  /** `user.branch_id || 1` */
  function BranchOrMain(branchId: Option<int>): (r: int)
    ensures TruthyId(branchId) ==> r == branchId.value
    ensures !TruthyId(branchId) ==> r == 1
  {
    if TruthyId(branchId) then branchId.value else 1
  }

  /** `modules.map(code => [newUserId, code])` */
  function ModuleRows(userId: int, modules: seq<string>): (rows: seq<(int, string)>)
    ensures |rows| == |modules|
    ensures forall i :: 0 <= i < |rows| ==> rows[i] == (userId, modules[i])
  {
    seq(|modules|, i requires 0 <= i < |modules| => (userId, modules[i]))
  }

  /** `createUser`.  The database answers are parameters: `beginError`,
      `modulesError` and `commitError` are the error of that call if it
      fails, `userInsert` the new id or the insert's error. */
  method CreateUser(user: UserInput, pass: string, creatorId: int, modules: seq<string>, hash: string -> string,
                    beginError: Option<string>, userInsert: Result<int>, modulesError: Option<string>,
                    commitError: Option<string>)
    returns (r: Result<int>, trace: seq<Step>)
    ensures |trace| >= 3 && trace[|trace| - 1] == Release
    ensures r.Success? <==> Commit in trace && Rollback !in trace
    ensures Rollback in trace <==> r.Failure?
    ensures r.Success? ==> userInsert.Success? && r.value == userInsert.value
    ensures r.Success? ==> trace == [Begin, InsertUser(user.username, hash(pass), user.role, BranchOrMain(user.branchId), creatorId)] +
                                    (if modules != [] then [InsertModules(ModuleRows(userInsert.value, modules))] else []) +
                                    [Commit, Release]
    ensures r.Failure? ==> trace[|trace| - 2] == Rollback
    ensures forall st :: st in trace && st.InsertModules? ==>
      modules != [] && userInsert.Success? && st.rows == ModuleRows(userInsert.value, modules)
    ensures r.Success? <==> beginError.None? && userInsert.Success? && (modules == [] || modulesError.None?) && commitError.None?
  {
    trace := [];
    var failure: Option<string> := None;
    trace := trace + [Begin];
    if beginError.Some? {
      failure := beginError;
    } else {
      trace := trace + [InsertUser(user.username, hash(pass), user.role, BranchOrMain(user.branchId), creatorId)];
      if userInsert.Failure? {
        failure := Some(userInsert.error);
      } else {
        if modules != [] {
          trace := trace + [InsertModules(ModuleRows(userInsert.value, modules))];
          failure := modulesError;
        }
        if failure.None? {
          trace := trace + [Commit];
          failure := commitError;
        }
      }
    }
    if failure.Some? {
      trace := trace + [Rollback];
      r := Failure(failure.value);
    } else {
      r := Success(userInsert.value);
    }
    trace := trace + [Release];
  }

  // -----------------------------------------------------------------------
  // Update
  // -----------------------------------------------------------------------

  const UPDATE_PIECES: seq<string> := ["UPDATE sys_users SET username=", ", role=", ", branch_id=", ", updated_by="]
  const SET_PASSWORD := ", password_hash="
  const WHERE_ID := " WHERE id="

  function OptInt(v: Option<int>): SqlValue {
    if v.Some? then SqlInt(v.value) else SqlNull
  }

  /** Whether the update writes a new password hash. */
  predicate WritesPassword(pass: Option<string>) {
    pass.Some? && pass.value != "" && Trim(pass.value) != ""
  }

  /** The statement and parameters `updateUser` starts from. */
  function UpdateBase(user: UserInput, updaterId: int): (q: Query)
    ensures Bound(q) && Render(q.tokens) == Joined(UPDATE_PIECES)
    ensures q.params == [SqlText(user.username), SqlText(user.role), OptInt(user.branchId), SqlInt(updaterId)]
  {
    AddAll(Fixed(""), UPDATE_PIECES, [SqlText(user.username), SqlText(user.role), OptInt(user.branchId), SqlInt(updaterId)])
  }

  /** The statement `updateUser` sends: four base columns,
      `password_hash` only for a password that is not blank after trimming,
      the id last. */
  function UpdateStatement(id: int, user: UserInput, pass: Option<string>, updaterId: int, hash: string -> string): Query {
    var base := UpdateBase(user, updaterId);
    var q := if WritesPassword(pass) then AddBound(base, SET_PASSWORD, SqlText(hash(pass.value))) else base;
    AddBound(q, WHERE_ID, SqlInt(id))
  }

  /** `updateUser` builds the statement piece by piece, appending to the text
      and the parameter list as the source does.  This method is that
      imperative rendering; UpdateStatement is the specification it is
      proved against, and the lemmas about the statement are stated on
      UpdateStatement. */
  method UpdateUserQuery(id: int, user: UserInput, pass: Option<string>, updaterId: int, hash: string -> string)
    returns (q: Query)
    ensures q == UpdateStatement(id, user, pass, updaterId, hash)
  {
    q := UpdateBase(user, updaterId);
    if pass.Some? && pass.value != "" && Trim(pass.value) != "" {
      q := AddBound(q, SET_PASSWORD, SqlText(hash(pass.value)));
    }
    q := AddBound(q, WHERE_ID, SqlInt(id));
  }

  /** Every `?` has its value; the four base values come first, in column
      order, and the id is the last. */
  lemma UpdateStatementParams(id: int, user: UserInput, pass: Option<string>, updaterId: int, hash: string -> string)
    ensures var q := UpdateStatement(id, user, pass, updaterId, hash);
      Bound(q) && |q.params| >= 5 && q.params[|q.params| - 1] == SqlInt(id) &&
      q.params[..4] == [SqlText(user.username), SqlText(user.role), OptInt(user.branchId), SqlInt(updaterId)]
  {
    var base := UpdateBase(user, updaterId);
    var q := if WritesPassword(pass) then AddBound(base, SET_PASSWORD, SqlText(hash(pass.value))) else base;
    assert q.params[..4] == base.params;
    assert AddBound(q, WHERE_ID, SqlInt(id)).params == q.params + [SqlInt(id)];
  }

  /** `password_hash = ?` is in the statement exactly when a new password
      is written, and then its value is the hash of that password. */
  lemma UpdateStatementPassword(id: int, user: UserInput, pass: Option<string>, updaterId: int, hash: string -> string)
    ensures var q := UpdateStatement(id, user, pass, updaterId, hash);
      WritesPassword(pass) ==>
        Render(q.tokens) == Joined(UPDATE_PIECES + [SET_PASSWORD] + [WHERE_ID]) && |q.params| == 6 &&
        q.params[4] == SqlText(hash(pass.value))
    ensures var q := UpdateStatement(id, user, pass, updaterId, hash);
      !WritesPassword(pass) ==> Render(q.tokens) == Joined(UPDATE_PIECES + [WHERE_ID]) && |q.params| == 5
  {
    var base := UpdateBase(user, updaterId);
    if WritesPassword(pass) {
      var v := SqlText(hash(pass.value));
      AddBoundJoined(base, UPDATE_PIECES, SET_PASSWORD, v);
      AddBoundJoined(AddBound(base, SET_PASSWORD, v), UPDATE_PIECES + [SET_PASSWORD], WHERE_ID, SqlInt(id));
    } else {
      AddBoundJoined(base, UPDATE_PIECES, WHERE_ID, SqlInt(id));
    }
  }

  /** A password made only of whitespace is not a new password: the stored
      hash is kept. */
  lemma BlankPasswordKeepsHash(pass: string)
    requires forall i :: 0 <= i < |pass| ==> IsWhitespace(pass[i])
    ensures !WritesPassword(Some(pass))
  {
    TrimStartAllWhitespace(pass);
  }

  lemma {:induction false} TrimStartAllWhitespace(s: string)
    requires forall i :: 0 <= i < |s| ==> IsWhitespace(s[i])
    ensures TrimStart(s) == ""
    decreases |s|
  {
    if s != [] {
      assert IsWhitespace(s[0]);
      TrimStartAllWhitespace(s[1..]);
    }
  }
}
