/** The users page: table formatters and the save form. */
module UsersClient {
  import opened Wrappers
  import UsersController
  import opened Js

  /** `roleFormatter` */
  function RoleLabel(role: string): (caption: string)
    ensures role == "admin" ==> caption == "Administrador"
    ensures role == "analista" ==> caption == "Analista"
    ensures role != "admin" && role != "analista" ==> caption == "Visualizador"
  {
    if role == "admin" then "Administrador" else if role == "analista" then "Analista" else "Visualizador"
  }

  /** `dateFormatter`; `localeDate` stands for `toLocaleDateString`. */
  function DateLabel(value: Option<string>, localeDate: string -> string): (caption: string)
    ensures value.None? || value.value == "" ==> caption == "-"
    ensures value.Some? && value.value != "" ==> caption == localeDate(value.value)
  {
    if value.None? || value.value == "" then "-" else localeDate(value.value)
  }

  /** `actionFormatter`: the delete button is live except on the row of the
      session user. */
  predicate DeleteEnabled(rowId: int, currentUserId: int) {
    rowId != currentUserId
  }

  /** The delete button is live exactly on the rows whose deletion an
      admin's request carries out: the disabled row is the one the server
      would refuse as self-deletion. */
  lemma DeleteButtonMatchesGuard(rowId: int, currentUserId: int, deleteError: Option<string>)
    ensures DeleteEnabled(rowId, currentUserId) <==>
      UsersController.Remove("admin", currentUserId, JNum(rowId), deleteError).effects != []
    ensures !DeleteEnabled(rowId, currentUserId) ==>
      UsersController.Remove("admin", currentUserId, JNum(rowId), deleteError).error == Some(UsersController.NO_SELF_DELETE)
  {
  }

  /** A module checkbox of the dialog. */
  datatype ModuleBox = ModuleBox(value: string, checked: bool)

  /** The values of the checked boxes, in page order. */
  function CheckedModules(boxes: seq<ModuleBox>): (r: seq<string>)
    ensures |r| <= |boxes|
    ensures forall m :: m in r <==> exists i :: 0 <= i < |boxes| && boxes[i].checked && boxes[i].value == m
  {
    if boxes == [] then []
    else
      var rest := CheckedModules(boxes[1..]);
      assert forall i :: 1 <= i < |boxes| ==> boxes[i] == boxes[1..][i - 1];
      if boxes[0].checked then [boxes[0].value] + rest else rest
  }

  datatype UserPayload = UserPayload(username: string, password: string, role: string, branchId: string, modules: seq<string>)

  datatype SaveAction = Warn(message: string) | Send(httpMethod: string, url: string, body: UserPayload)

  const USER_REQUIRED := "El usuario es obligatorio"
  const PASSWORD_REQUIRED := "Contraseña obligatoria"

  /** `guardarUsuario`: a username is always required, a password only when
      creating (no id). */
  function SaveUser(id: string, username: string, password: string, role: string, branchId: string,
                    boxes: seq<ModuleBox>): (r: SaveAction)
    ensures username == "" ==> r == Warn(USER_REQUIRED)
    ensures username != "" && id == "" && password == "" ==> r == Warn(PASSWORD_REQUIRED)
    ensures r.Send? <==> username != "" && (id != "" || password != "")
    ensures r.Send? ==> (r.httpMethod == "PUT" <==> id != "") && (r.httpMethod == "POST" <==> id == "")
    ensures r.Send? && id != "" ==> r.url == "/users/" + id
    ensures r.Send? && id == "" ==> r.url == "/users"
    ensures r.Send? ==> r.body == UserPayload(username, password, role, branchId, CheckedModules(boxes))
  {
    if username == "" then Warn(USER_REQUIRED)
    else if id == "" && password == "" then Warn(PASSWORD_REQUIRED)
    else
      var body := UserPayload(username, password, role, branchId, CheckedModules(boxes));
      if id != "" then Send("PUT", "/users/" + id, body) else Send("POST", "/users", body)
  }

  /** An edit may leave the password empty; a creation may not. */
  lemma PasswordOnlyForCreation(id: string, username: string, role: string, branchId: string, boxes: seq<ModuleBox>)
    requires username != ""
    ensures SaveUser(id, username, "", role, branchId, boxes).Send? <==> id != ""
  {
  }

  /** The modules follow the page: the checked values of two runs of
      boxes are those of the first run, then those of the second. */
  lemma {:induction false} CheckedModulesConcat(a: seq<ModuleBox>, b: seq<ModuleBox>)
    ensures CheckedModules(a + b) == CheckedModules(a) + CheckedModules(b)
    decreases |a|
  {
    if a != [] {
      CheckedModulesConcat(a[1..], b);
      assert (a + b)[1..] == a[1..] + b;
    } else {
      assert a + b == b;
    }
  }

  /** No box checked sends no module; every box checked sends every value
      in page order. */
  lemma {:induction false} CheckedModulesInOrder(boxes: seq<ModuleBox>)
    ensures (forall i :: 0 <= i < |boxes| ==> !boxes[i].checked) ==> CheckedModules(boxes) == []
    ensures (forall i :: 0 <= i < |boxes| ==> boxes[i].checked) ==>
      CheckedModules(boxes) == seq(|boxes|, i requires 0 <= i < |boxes| => boxes[i].value)
    decreases |boxes|
  {
    if boxes != [] {
      CheckedModulesInOrder(boxes[1..]);
    }
  }
}
