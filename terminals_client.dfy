/** The terminals page: table formatters, the blank-password checkbox and
    the save form. */
module TerminalsClient {
  import opened Wrappers
  import opened Js
  import TerminalsService
  import SqlQuery

  datatype StatusBadge = Active | Inactive
  datatype TypeBadge = Server | Till

  /** `statusFormatter`: only `1` and `true` are active. */
  function StatusFormatter(v: JsValue): (b: StatusBadge)
    ensures b == Active <==> v == JNum(1) || v == JBool(true)
  {
    if IsOneOrTrue(v) then Active else Inactive
  }

  /** `typeFormatter`: only `1` and `true` are servers. */
  function TypeFormatter(v: JsValue): (b: TypeBadge)
    ensures b == Server <==> v == JNum(1) || v == JBool(true)
  {
    if IsOneOrTrue(v) then Server else Till
  }

  /** The values `actionFormatter` passes to the edit dialog. */
  datatype EditArgs = EditArgs(isServer: int, isActive: int, branchId: JsValue)

  function ActionFormatter(isServer: JsValue, isActive: JsValue, branchId: JsValue): (a: EditArgs)
    ensures a.isServer == 1 <==> IsOneOrTrue(isServer)
    ensures a.isServer == 0 <==> !IsOneOrTrue(isServer)
    ensures a.isActive == 1 <==> IsOneOrTrue(isActive)
    ensures a.isActive == 0 <==> !IsOneOrTrue(isActive)
    ensures Truthy(branchId) ==> a.branchId == branchId
    ensures !Truthy(branchId) ==> a.branchId == JNum(1)
  {
    EditArgs(if IsOneOrTrue(isServer) then 1 else 0, if IsOneOrTrue(isActive) then 1 else 0, OrElse(branchId, JNum(1)))
  }

  /** The edit dialog opens with the same type and state the table shows. */
  lemma EditArgsMatchBadges(isServer: JsValue, isActive: JsValue, branchId: JsValue)
    ensures var a := ActionFormatter(isServer, isActive, branchId);
      (a.isServer == 1 <==> TypeFormatter(isServer) == Server) &&
      (a.isActive == 1 <==> StatusFormatter(isActive) == Active)
  {
  }

  // -----------------------------------------------------------------------
  // Blank-password checkbox
  // -----------------------------------------------------------------------

  datatype PasswordField = PasswordField(value: string, disabled: bool)

  /** The checkbox's change handler: checking clears and disables the
      field, unchecking enables it again. */
  function ToggleForceBlank(field: PasswordField, checked: bool): (r: PasswordField)
    ensures checked ==> r == PasswordField("", true)
    ensures !checked ==> r == PasswordField(field.value, false)
  {
    if checked then PasswordField("", true) else field.(disabled := false)
  }

  // -----------------------------------------------------------------------
  // Save form
  // -----------------------------------------------------------------------

  datatype TerminalPayload = TerminalPayload(name: string, ipAddress: string, dbUser: string, dbPass: string,
                                             isServer: bool, isActive: JsValue, branchId: JsValue, forceBlankPassword: bool)

  datatype SaveAction = Warn(message: string) | Send(httpMethod: string, url: string, body: TerminalPayload)

  const NAME_REQUIRED := "El nombre es obligatorio"
  const IP_REQUIRED := "La dirección IP es obligatoria"
  const USER_REQUIRED := "El usuario de BD es obligatorio"

  /** `guardarTerminal`: name, then IP, then database user are required; a
      non-empty id makes it an update.  The type select's `"1"` means
      server; state and branch go through `Number`. */
  function SaveTerminal(id: string, name: string, ipAddress: string, dbUser: string, dbPass: string, typeValue: string,
                        isActive: string, branchId: string, forceBlank: bool): (r: SaveAction)
    ensures name == "" ==> r == Warn(NAME_REQUIRED)
    ensures name != "" && ipAddress == "" ==> r == Warn(IP_REQUIRED)
    ensures name != "" && ipAddress != "" && dbUser == "" ==> r == Warn(USER_REQUIRED)
    ensures r.Send? <==> name != "" && ipAddress != "" && dbUser != ""
    ensures r.Send? ==> (r.httpMethod == "PUT" <==> id != "") && (r.httpMethod == "POST" <==> id == "")
    ensures r.Send? && id != "" ==> r.url == "/terminals/" + id
    ensures r.Send? && id == "" ==> r.url == "/terminals"
    ensures r.Send? ==> (r.body.isServer <==> typeValue == "1")
    ensures r.Send? ==> r.body.isActive == ToNumber(isActive) && r.body.branchId == ToNumber(branchId)
    ensures r.Send? ==> r.body.dbPass == dbPass && r.body.forceBlankPassword == forceBlank
  {
    var body := TerminalPayload(name, ipAddress, dbUser, dbPass, typeValue == "1", ToNumber(isActive),
                                ToNumber(branchId), forceBlank);
    if name == "" then Warn(NAME_REQUIRED)
    else if ipAddress == "" then Warn(IP_REQUIRED)
    else if dbUser == "" then Warn(USER_REQUIRED)
    else if id != "" then Send("PUT", "/terminals/" + id, body)
    else Send("POST", "/terminals", body)
  }

  /** What the update handler reads from the posted body. */
  function AsInput(p: TerminalPayload): TerminalsService.TerminalInput {
    TerminalsService.TerminalInput(p.name, p.ipAddress, p.dbUser, Some(p.dbPass),
                                   if p.branchId.JNum? then Some(p.branchId.n) else None, p.isActive, JBool(p.isServer))
  }

  /** Checking the box and saving blanks the stored password, whatever was
      typed before: the dialog sends an empty password and the flag, and the
      update writes the empty password. */
  lemma ForceBlankClearsPassword(field: PasswordField, id: string, name: string, ipAddress: string, dbUser: string,
                                 typeValue: string, isActive: string, branchId: string, stored: string,
                                 encrypt: string -> string)
    requires id != "" && name != "" && ipAddress != "" && dbUser != ""
    ensures var f := ToggleForceBlank(field, true);
      var r := SaveTerminal(id, name, ipAddress, dbUser, f.value, typeValue, isActive, branchId, true);
      r.Send? && r.body.dbPass == "" &&
      TerminalsService.PasswordAfterUpdate(stored, AsInput(r.body), r.body.forceBlankPassword, encrypt) == ""
  {
  }

  /** The type chosen in the dialog is the `is_server` flag the update
      stores. */
  lemma TypeReachesServerFlag(id: string, name: string, ipAddress: string, dbUser: string, dbPass: string,
                              typeValue: string, isActive: string, branchId: string, forceBlank: bool)
    requires name != "" && ipAddress != "" && dbUser != ""
    ensures var r := SaveTerminal(id, name, ipAddress, dbUser, dbPass, typeValue, isActive, branchId, forceBlank);
      TerminalsService.Flag(AsInput(r.body).isServer) == SqlQuery.SqlInt(if typeValue == "1" then 1 else 0)
  {
  }
}
