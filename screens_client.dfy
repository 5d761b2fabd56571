/** The screens page: MAC address entry and the save form. */
module ScreensClient {
  import opened Wrappers
  import opened Text

  predicate IsUpperHex(c: char) {
    '0' <= c <= '9' || 'A' <= c <= 'F'
  }

  predicate HexPair(s: string) {
    |s| == 2 && IsUpperHex(s[0]) && IsUpperHex(s[1])
  }

  /** `k` groups of `[0-9A-F]{2}:` followed by one `[0-9A-F]{2}`, the whole
      string. */
  predicate MacGroups(m: string, k: nat)
    decreases k
  {
    if k == 0 then HexPair(m) else |m| >= 3 && HexPair(m[..2]) && m[2] == ':' && MacGroups(m[3..], k - 1)
  }

  /** `/^([0-9A-F]{2}:){5}[0-9A-F]{2}$/.test(m)` */
  predicate MatchesMac(m: string) {
    MacGroups(m, 5)
  }

  /** The same language described position by position: 17 characters, a
      colon at every third position, an upper-case hex digit elsewhere. */
  predicate MacShape(m: string) {
    |m| == 17 && forall i :: 0 <= i < |m| ==> if i % 3 == 2 then m[i] == ':' else IsUpperHex(m[i])
  }

  lemma {:induction false} MacGroupsShape(m: string, k: nat)
    ensures MacGroups(m, k) <==>
      |m| == 3 * k + 2 && forall i :: 0 <= i < |m| ==> if i % 3 == 2 then m[i] == ':' else IsUpperHex(m[i])
    decreases k
  {
    if k > 0 && |m| >= 3 {
      var rest := m[3..];
      MacGroupsShape(rest, k - 1);
      assert forall i :: 3 <= i < |m| ==> m[i] == rest[i - 3] && (i - 3) % 3 == i % 3;
      if |m| == 3 * k + 2 && forall i :: 0 <= i < |m| ==> if i % 3 == 2 then m[i] == ':' else IsUpperHex(m[i]) {
        assert m[0] == m[..2][0] && m[1] == m[..2][1];
        assert IsUpperHex(m[0]) && IsUpperHex(m[1]) && m[2] == ':';
        forall j | 0 <= j < |rest|
          ensures if j % 3 == 2 then rest[j] == ':' else IsUpperHex(rest[j])
        {
          assert rest[j] == m[j + 3] && (j + 3) % 3 == j % 3;
        }
      }
    }
  }

  /** The regular expression accepts exactly the position-by-position
      shape. */
  lemma MacRegexShape(m: string)
    ensures MatchesMac(m) <==> MacShape(m)
  {
    MacGroupsShape(m, 5);
  }

  /** `macInput.value.trim().toUpperCase()` */
  function NormalizeMac(input: string): (r: string)
    ensures |r| <= |input|
  {
    UpperAscii(Trim(input))
  }

  /** `saveMacAddress`: the value sent, or `None` when the format warning
      is shown instead. */
  function SaveMacAddress(input: string): (r: Option<string>)
    ensures r.Some? <==> MatchesMac(NormalizeMac(input))
    ensures r.Some? ==> r.value == NormalizeMac(input) && MacShape(r.value)
  {
    var mac := NormalizeMac(input);
    MacRegexShape(mac);
    if MatchesMac(mac) then Some(mac) else None
  }

  /** A MAC that was accepted is accepted again unchanged: normalising is
      the identity on the accepted values. */
  lemma AcceptedMacIsStable(input: string)
    requires SaveMacAddress(input).Some?
    ensures SaveMacAddress(SaveMacAddress(input).value) == SaveMacAddress(input)
  {
    var m := SaveMacAddress(input).value;
    ShapeIsNormal(m);
  }

  lemma ShapeIsNormal(m: string)
    requires MacShape(m)
    ensures NormalizeMac(m) == m
  {
    assert IsUpperHex(m[0]) by { assert 0 % 3 == 0; }
    assert IsUpperHex(m[16]) by { assert 16 % 3 == 1; }
    TrimFramed(m);
    NoLowerCase(m);
  }

  lemma NoLowerCase(m: string)
    requires MacShape(m)
    ensures UpperAscii(m) == m
  {
    forall i | 0 <= i < |m|
      ensures !('a' <= m[i] <= 'z')
    {
      if i % 3 == 2 {
        assert m[i] == ':';
      } else {
        assert IsUpperHex(m[i]);
      }
    }
  }

  // -----------------------------------------------------------------------
  // Save form
  // -----------------------------------------------------------------------

  datatype ScreenPayload = ScreenPayload(name: string, deviceType: string, ipAddress: Option<string>, isActive: int)

  datatype SaveAction = Warn(message: string) | Send(httpMethod: string, url: string, body: ScreenPayload)

  const NAME_REQUIRED := "El nombre es obligatorio"
  const IP_REQUIRED := "La dirección IP es obligatoria para dispositivos DLNA"

  /** `saveScreen`: a name is required, and an IP only for a `dlna` device;
      an update needs both edit mode and an id. */
  function SaveScreen(editMode: bool, id: string, name: string, deviceType: string, ipAddress: string, active: bool)
    : (r: SaveAction)
    ensures name == "" ==> r == Warn(NAME_REQUIRED)
    ensures name != "" && deviceType == "dlna" && ipAddress == "" ==> r == Warn(IP_REQUIRED)
    ensures r.Send? <==> name != "" && !(deviceType == "dlna" && ipAddress == "")
    ensures r.Send? ==> (r.httpMethod == "PUT" <==> editMode && id != "")
    ensures r.Send? && editMode && id != "" ==> r.url == "/screens/" + id
    ensures r.Send? && !(editMode && id != "") ==> r.httpMethod == "POST" && r.url == "/screens/create"
    ensures r.Send? ==> r.body.name == name && r.body.deviceType == deviceType
    ensures r.Send? ==> (r.body.ipAddress.None? <==> ipAddress == "") && (ipAddress != "" ==> r.body.ipAddress == Some(ipAddress))
    ensures r.Send? ==> r.body.isActive == if active then 1 else 0
  {
    if name == "" then Warn(NAME_REQUIRED)
    else if deviceType == "dlna" && ipAddress == "" then Warn(IP_REQUIRED)
    else
      var body := ScreenPayload(name, deviceType, if ipAddress != "" then Some(ipAddress) else None, if active then 1 else 0);
      if editMode && id != "" then Send("PUT", "/screens/" + id, body) else Send("POST", "/screens/create", body)
  }

  /** Every screen saved as `dlna` carries an IP address. */
  lemma DlnaAlwaysHasAddress(editMode: bool, id: string, name: string, ipAddress: string, active: bool)
    ensures var r := SaveScreen(editMode, id, name, "dlna", ipAddress, active);
      r.Send? ==> r.body.ipAddress.Some? && r.body.ipAddress.value != ""
  {
  }
}
