/** The authorisation guards of the user update and delete handlers. */
module UsersController {
  import opened Wrappers
  import opened Js

  /** The calls a handler makes, in order. */
  datatype Effect =
    | UpdateUser(id: JsValue)
    | DeleteUser(id: JsValue)
    | Audit(action: string, entity: string, id: JsValue)

  /** The status sent and the calls made.  `error` is the body's message
      for a non-200 status. */
  datatype Handled = Handled(status: int, error: Option<string>, effects: seq<Effect>)

  const NO_PERMISSION := "Sin permisos"
  const NO_DELETE_PERMISSION := "No tienes permisos para eliminar usuarios."
  const NO_SELF_DELETE := "No puedes eliminar tu propio usuario mientras estás conectado."

  /** `update`: a non-admin gets 403 before anything is written.  The id is
      `Number(req.params.id)`; `updateError` is the update's failure. */
  function Update(role: string, id: JsValue, updateError: Option<string>): (r: Handled)
    ensures role != "admin" ==> r == Handled(403, Some(NO_PERMISSION), [])
    ensures role == "admin" && updateError.Some? ==> r == Handled(400, updateError, [UpdateUser(id)])
    ensures role == "admin" && updateError.None? ==> r == Handled(200, None, [UpdateUser(id), Audit("UPDATE", "USER", id)])
  {
    if role != "admin" then Handled(403, Some(NO_PERMISSION), [])
    else if updateError.Some? then Handled(400, updateError, [UpdateUser(id)])
    else Handled(200, None, [UpdateUser(id), Audit("UPDATE", "USER", id)])
  }

  /** `remove`: only an admin may delete, and never the account of the
      session (`targetId === currentUser.id`; a `NaN` id never matches). */
  function Remove(role: string, currentId: int, targetId: JsValue, deleteError: Option<string>): (r: Handled)
    ensures role != "admin" ==> r == Handled(403, Some(NO_DELETE_PERMISSION), [])
    ensures role == "admin" && targetId == JNum(currentId) ==> r == Handled(400, Some(NO_SELF_DELETE), [])
    ensures role == "admin" && targetId != JNum(currentId) && deleteError.Some? ==>
      r == Handled(400, deleteError, [DeleteUser(targetId)])
    ensures role == "admin" && targetId != JNum(currentId) && deleteError.None? ==>
      r == Handled(200, None, [DeleteUser(targetId), Audit("DELETE", "USER", targetId)])
  {
    if role != "admin" then Handled(403, Some(NO_DELETE_PERMISSION), [])
    else if targetId == JNum(currentId) then Handled(400, Some(NO_SELF_DELETE), [])
    else if deleteError.Some? then Handled(400, deleteError, [DeleteUser(targetId)])
    else Handled(200, None, [DeleteUser(targetId), Audit("DELETE", "USER", targetId)])
  }

  /** A user is deleted only by an admin other than that user, and the
      audit entry, when written, follows the deletion of the same id. */
  lemma DeletionGuarded(role: string, currentId: int, targetId: JsValue, deleteError: Option<string>)
    ensures var r := Remove(role, currentId, targetId, deleteError);
      (exists i :: 0 <= i < |r.effects| && r.effects[i].DeleteUser?) ==> role == "admin" && targetId != JNum(currentId)
    ensures var r := Remove(role, currentId, targetId, deleteError);
      forall i :: 0 <= i < |r.effects| && r.effects[i].Audit? ==>
        i > 0 && r.effects[i - 1] == DeleteUser(r.effects[i].id) && deleteError.None?
    ensures Remove(role, currentId, targetId, deleteError).status == 200 <==>
      role == "admin" && targetId != JNum(currentId) && deleteError.None?
  {
  }

  /** An admin can never delete their own account, whatever the database
      would answer. */
  lemma NoSelfDeletion(currentId: int, deleteError: Option<string>)
    ensures Remove("admin", currentId, JNum(currentId), deleteError).effects == []
  {
  }
}
