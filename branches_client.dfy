/** The branches page: the status formatter and the save form. */
module BranchesClient {
  import opened Wrappers
  import opened Text
  import opened Js

  datatype StatusBadge = Open | Closed

  /** `statusFormatter`: only the number `1` shows as active. */
  function StatusFormatter(v: JsValue): (b: StatusBadge)
    ensures b == Open <==> v == JNum(1)
  {
    if v == JNum(1) then Open else Closed
  }

  datatype BranchPayload = BranchPayload(name: string, code: string, address: Option<string>, isActive: JsValue)

  datatype SaveAction = Warn(message: string) | Send(httpMethod: string, url: string, body: BranchPayload)

  const NAME_REQUIRED := "El nombre es obligatorio"
  const CODE_REQUIRED := "El código es obligatorio"

  /** `guardarBranch`: name, code and address are trimmed; the name, then
      the code, are required; an empty address is sent as null and the
      state through `Number`. */
  function SaveBranch(id: string, name: string, code: string, address: string, isActive: string): (r: SaveAction)
    ensures Trim(name) == "" ==> r == Warn(NAME_REQUIRED)
    ensures Trim(name) != "" && Trim(code) == "" ==> r == Warn(CODE_REQUIRED)
    ensures r.Send? <==> Trim(name) != "" && Trim(code) != ""
    ensures r.Send? ==> (r.httpMethod == "PUT" <==> id != "") && (r.httpMethod == "POST" <==> id == "")
    ensures r.Send? && id != "" ==> r.url == "/branches/" + id
    ensures r.Send? && id == "" ==> r.url == "/branches"
    ensures r.Send? ==> r.body.name == Trim(name) && r.body.code == Trim(code)
    ensures r.Send? ==> (r.body.address.None? <==> Trim(address) == "")
    ensures r.Send? && Trim(address) != "" ==> r.body.address == Some(Trim(address))
    ensures r.Send? ==> r.body.isActive == ToNumber(isActive)
  {
    var n := Trim(name);
    var c := Trim(code);
    var a := Trim(address);
    if n == "" then Warn(NAME_REQUIRED)
    else if c == "" then Warn(CODE_REQUIRED)
    else
      var body := BranchPayload(n, c, if a != "" then Some(a) else None, ToNumber(isActive));
      if id != "" then Send("PUT", "/branches/" + id, body) else Send("POST", "/branches", body)
  }

  /** What is sent never starts or ends with whitespace and is never
      empty: a name of spaces only is refused. */
  lemma SentFieldsAreTrimmed(id: string, name: string, code: string, address: string, isActive: string)
    ensures var r := SaveBranch(id, name, code, address, isActive);
      r.Send? ==> Framed(r.body.name) && Framed(r.body.code)
  {
    var r := SaveBranch(id, name, code, address, isActive);
    if r.Send? {
      TrimIsFramed(name);
      TrimIsFramed(code);
    }
  }

  /** A name made only of spaces is refused. */
  lemma BlankNameRefused(id: string, spaces: nat, code: string, address: string, isActive: string)
    ensures SaveBranch(id, Repeat(' ', spaces), code, address, isActive) == Warn(NAME_REQUIRED)
  {
    TrimStartBlank(Repeat(' ', spaces));
  }

  lemma {:induction false} TrimStartBlank(s: string)
    requires forall i :: 0 <= i < |s| ==> s[i] == ' '
    ensures TrimStart(s) == ""
    decreases |s|
  {
    if s != [] {
      TrimStartBlank(s[1..]);
    }
  }
}
