/** The statements `createTerminal` and `updateTerminal` send for the
    `pos_terminals` table.  `encrypt` stands for the AES helper. */
module TerminalsService {
  import opened Wrappers
  import opened Text
  import opened Js
  import opened SqlQuery

  /** A terminal as the request body carries it; the flags are whatever
      JSON value was sent and are read by truthiness. */
  datatype TerminalInput = TerminalInput(name: string, ipAddress: string, dbUser: string, dbPass: Option<string>,
                                         branchId: Option<int>, isActive: JsValue, isServer: JsValue)

  function Flag(v: JsValue): (r: SqlValue)
    ensures r == SqlInt(1) <==> Truthy(v)
    ensures r == SqlInt(0) <==> !Truthy(v)
  {
    if Truthy(v) then SqlInt(1) else SqlInt(0)
  }

  function OptInt(v: Option<int>): SqlValue {
    if v.Some? then SqlInt(v.value) else SqlNull
  }

  function OptText(v: Option<string>): SqlValue {
    if v.Some? then SqlText(v.value) else SqlNull
  }

  /** The `db_pass` value an insert stores: a non-empty password is
      encrypted, an empty or missing one is stored as sent. */
  function StoredOnCreate(dbPass: Option<string>, encrypt: string -> string): (r: SqlValue)
    ensures dbPass.Some? && dbPass.value != "" ==> r == SqlText(encrypt(dbPass.value))
    ensures dbPass.None? ==> r == SqlNull
    ensures dbPass == Some("") ==> r == SqlText("")
  {
    if dbPass.Some? && dbPass.value != "" then SqlText(encrypt(dbPass.value)) else OptText(dbPass)
  }

  /** `createTerminal`: the parameters of the fixed eight-column insert. */
  method CreateTerminalParams(data: TerminalInput, creatorId: int, encrypt: string -> string) returns (params: seq<SqlValue>)
    ensures |params| == 8
    ensures params == [SqlText(data.name), SqlText(data.ipAddress), SqlText(data.dbUser),
                       StoredOnCreate(data.dbPass, encrypt), SqlInt(1), Flag(data.isServer),
                       OptInt(data.branchId), SqlInt(creatorId)]
  {
    var dbPass := OptText(data.dbPass);
    if data.dbPass.Some? && data.dbPass.value != "" {
      dbPass := SqlText(encrypt(data.dbPass.value));
    }
    params := [SqlText(data.name), SqlText(data.ipAddress), SqlText(data.dbUser), dbPass, SqlInt(1),
               (if Truthy(data.isServer) then SqlInt(1) else SqlInt(0)), OptInt(data.branchId), SqlInt(creatorId)];
  }

  /** A non-empty password is never stored as its plain text, as long as
      `encrypt` changes it. */
  lemma CreateNeverStoresPlainText(data: TerminalInput, creatorId: int, encrypt: string -> string)
    ensures data.dbPass.Some? && data.dbPass.value != "" && encrypt(data.dbPass.value) != data.dbPass.value ==>
      StoredOnCreate(data.dbPass, encrypt) != SqlText(data.dbPass.value)
  {
  }

  // -----------------------------------------------------------------------
  // Update
  // -----------------------------------------------------------------------

  /** The base statement, as the pieces before each of its seven `?`. */
  const UPDATE_PIECES: seq<string> := ["UPDATE pos_terminals SET name=", ", ip_address=", ", db_user=", ", is_server=",
                                       ", is_active=", ", branch_id=", ", updated_by="]
  const SET_PASSWORD := ", db_pass = "
  const WHERE_ID := " WHERE id = "

  /** The statement and parameters `updateTerminal` starts from. */
  function UpdateBase(data: TerminalInput, updaterId: int): (q: Query)
    ensures Bound(q) && Render(q.tokens) == Joined(UPDATE_PIECES)
    ensures q.params == [SqlText(data.name), SqlText(data.ipAddress), SqlText(data.dbUser), Flag(data.isServer),
                         Flag(data.isActive), OptInt(data.branchId), SqlInt(updaterId)]
  {
    AddAll(Fixed(""), UPDATE_PIECES, [SqlText(data.name), SqlText(data.ipAddress), SqlText(data.dbUser),
                                      Flag(data.isServer), Flag(data.isActive), OptInt(data.branchId), SqlInt(updaterId)])
  }

  /** Whether the update writes `db_pass`: the blank-password box is checked,
      or a password that is not blank after trimming was sent. */
  predicate WritesPassword(data: TerminalInput, forceBlank: bool) {
    forceBlank || (data.dbPass.Some? && data.dbPass.value != "" && Trim(data.dbPass.value) != "")
  }

  /** The password a terminal has after the update, given the stored one. */
  function PasswordAfterUpdate(stored: string, data: TerminalInput, forceBlank: bool, encrypt: string -> string): (r: string)
    ensures forceBlank ==> r == ""
    ensures !forceBlank && WritesPassword(data, forceBlank) ==> r == encrypt(data.dbPass.value)
    ensures !WritesPassword(data, forceBlank) ==> r == stored
  {
    if forceBlank then ""
    else if WritesPassword(data, forceBlank) then encrypt(data.dbPass.value)
    else stored
  }

  /** The statement `updateTerminal` sends: seven base columns, `db_pass`
      when a password is written, the id last. */
  function UpdateStatement(id: int, data: TerminalInput, updaterId: int, forceBlank: bool, encrypt: string -> string): Query {
    var base := UpdateBase(data, updaterId);
    var q := if WritesPassword(data, forceBlank)
      then AddBound(base, SET_PASSWORD, SqlText(if forceBlank then "" else encrypt(data.dbPass.value)))
      else base;
    AddBound(q, WHERE_ID, SqlInt(id))
  }

  /** `updateTerminal` builds the statement piece by piece, appending to the text
      and the parameter list as the source does.  This method is that
      imperative rendering; UpdateStatement is the specification it is
      proved against, and the lemmas about the statement are stated on
      UpdateStatement. */
  method UpdateTerminalQuery(id: int, data: TerminalInput, updaterId: int, forceBlank: bool, encrypt: string -> string)
    returns (q: Query)
    ensures q == UpdateStatement(id, data, updaterId, forceBlank, encrypt)
  {
    q := UpdateBase(data, updaterId);
    if forceBlank {
      q := AddBound(q, SET_PASSWORD, SqlText(""));
    } else if data.dbPass.Some? && data.dbPass.value != "" && Trim(data.dbPass.value) != "" {
      q := AddBound(q, SET_PASSWORD, SqlText(encrypt(data.dbPass.value)));
    }
    q := AddBound(q, WHERE_ID, SqlInt(id));
  }

  /** Every `?` has its value; the seven base values come first, in column
      order, and the id is the last. */
  lemma UpdateStatementParams(id: int, data: TerminalInput, updaterId: int, forceBlank: bool, encrypt: string -> string)
    ensures var q := UpdateStatement(id, data, updaterId, forceBlank, encrypt);
      Bound(q) && |q.params| >= 8 && q.params[|q.params| - 1] == SqlInt(id) &&
      q.params[..7] == [SqlText(data.name), SqlText(data.ipAddress), SqlText(data.dbUser), Flag(data.isServer),
                        Flag(data.isActive), OptInt(data.branchId), SqlInt(updaterId)]
  {
    var base := UpdateBase(data, updaterId);
    var q := if WritesPassword(data, forceBlank)
      then AddBound(base, SET_PASSWORD, SqlText(if forceBlank then "" else encrypt(data.dbPass.value)))
      else base;
    assert q.params[..7] == base.params;
    assert AddBound(q, WHERE_ID, SqlInt(id)).params == q.params + [SqlInt(id)];
  }

  /** `db_pass = ?` is in the statement exactly when a password is written,
      and then its value is the empty text for the blank-password box and
      the encrypted password otherwise. */
  lemma UpdateStatementPassword(id: int, data: TerminalInput, updaterId: int, forceBlank: bool, encrypt: string -> string)
    ensures var q := UpdateStatement(id, data, updaterId, forceBlank, encrypt);
      WritesPassword(data, forceBlank) ==>
        Render(q.tokens) == Joined(UPDATE_PIECES + [SET_PASSWORD] + [WHERE_ID]) && |q.params| == 9 &&
        q.params[7] == SqlText(if forceBlank then "" else encrypt(data.dbPass.value))
    ensures var q := UpdateStatement(id, data, updaterId, forceBlank, encrypt);
      !WritesPassword(data, forceBlank) ==> Render(q.tokens) == Joined(UPDATE_PIECES + [WHERE_ID]) && |q.params| == 8
  {
    var base := UpdateBase(data, updaterId);
    if WritesPassword(data, forceBlank) {
      var v := SqlText(if forceBlank then "" else encrypt(data.dbPass.value));
      AddBoundJoined(base, UPDATE_PIECES, SET_PASSWORD, v);
      AddBoundJoined(AddBound(base, SET_PASSWORD, v), UPDATE_PIECES + [SET_PASSWORD], WHERE_ID, SqlInt(id));
    } else {
      AddBoundJoined(base, UPDATE_PIECES, WHERE_ID, SqlInt(id));
    }
  }
}
