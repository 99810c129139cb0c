/**
 * The access-point side of the sketch: the placeholder lookup used to render
 * the configuration page, the `/get` form handler that saves one credential
 * per request, and the 404 handler for every other path.
 */
module Provisioning {
  import opened Flash

  /** Query parameter names and placeholder tokens (the same two words). */
  const ParamSsid: string := "inputssid"
  const ParamPass: string := "inputpass"

  /** The files the two credentials live in. */
  const SsidPath: string := "/inputssid.txt"
  const PassPath: string := "/inputpass.txt"

  const NoMessageSent: string := "No message sent"

  datatype Response = Response(status: int, contentType: string, body: string)

  /** notFound: every unrouted request gets a plain-text 404. */
  function NotFound(): (r: Response)
    ensures r.status == 404 && r.contentType == "text/plain" && r.body == "Not found"
  {
    Response(404, "text/plain", "Not found")
  }

  /** The credential file a placeholder token or form parameter stands for. */
  function FieldPath(key: string): string
    requires key == ParamSsid || key == ParamPass
  {
    if key == ParamSsid then SsidPath else PassPath
  }

  /** processor: the text substituted for `%token%`; unknown tokens become "". */
  function Processor(v: Volume, token: string): (r: string)
    ensures token == ParamSsid ==> r == Read(v, SsidPath)
    ensures token == ParamPass ==> r == Read(v, PassPath)
    ensures token != ParamSsid && token != ParamPass ==> r == []
    ensures NoNul(r)
  {
    if token == ParamSsid then Read(v, SsidPath)
    else if token == ParamPass then Read(v, PassPath)
    else []
  }

  /** The store after a request and the reply sent for it. */
  datatype Outcome = Outcome(vol: Volume, reply: Response)

  /**
   * The `/get` handler: the SSID parameter wins over the password parameter;
   * the value is echoed with 200 whether or not the file could be opened.
   */
  function HandleGet(v: Volume, params: map<string, string>): (o: Outcome)
    ensures o.reply.status == 200 && o.reply.contentType == "text/text"
    ensures o.vol.unopenable == v.unopenable
    ensures ParamSsid in params ==>
      && o.reply.body == params[ParamSsid]
      && Read(o.vol, SsidPath) == (if WriteOpens(v, SsidPath) then CString(params[ParamSsid]) else Read(v, SsidPath))
      && (forall q :: q != SsidPath ==> Agrees(v, o.vol, q))
    ensures ParamSsid in params && !WriteOpens(v, SsidPath) ==> o.vol == v
    ensures ParamSsid !in params && ParamPass in params ==>
      && o.reply.body == params[ParamPass]
      && Read(o.vol, PassPath) == (if WriteOpens(v, PassPath) then CString(params[ParamPass]) else Read(v, PassPath))
      && (forall q :: q != PassPath ==> Agrees(v, o.vol, q))
    ensures ParamSsid !in params && ParamPass in params && !WriteOpens(v, PassPath) ==> o.vol == v
    ensures ParamSsid !in params && ParamPass !in params ==>
      o.vol == v && o.reply.body == NoMessageSent
  {
    var message :=
      if ParamSsid in params then params[ParamSsid]
      else if ParamPass in params then params[ParamPass]
      else NoMessageSent;
    var w :=
      if ParamSsid in params then Write(v, SsidPath, message)
      else if ParamPass in params then Write(v, PassPath, message)
      else v;
    Outcome(w, Response(200, "text/text", message))
  }

  /**
   * The handler lambda as it runs against the mounted filesystem: at most one
   * writeFile, then the reply.
   */
  method OnGet(fs: Spiffs, params: map<string, string>) returns (reply: Response)
    modifies fs
    ensures Outcome(fs.vol, reply) == HandleGet(old(fs.vol), params)
  {
    var message: string;
    if ParamSsid in params {
      message := params[ParamSsid];
      fs.WriteFile(SsidPath, message);
    } else if ParamPass in params {
      message := params[ParamPass];
      fs.WriteFile(PassPath, message);
    } else {
      message := NoMessageSent;
    }
    reply := Response(200, "text/text", message);
  }

  /**
   * Submitting one form and re-rendering the page: the submitted field shows
   * the saved C string (the old value if the file could not be opened) and
   * the other field is unchanged.
   */
  lemma {:induction false} SubmitThenRender(v: Volume, key: string, value: string)
    requires key == ParamSsid || key == ParamPass
    ensures Processor(HandleGet(v, map[key := value]).vol, key) ==
      (if WriteOpens(v, FieldPath(key)) then CString(value) else Processor(v, key))
    ensures forall token :: token != key ==>
      Processor(HandleGet(v, map[key := value]).vol, token) == Processor(v, token)
  {
    var params := map[key := value];
    var o := HandleGet(v, params);
    if key == ParamSsid {
      assert o.vol == Write(v, SsidPath, value);
    } else {
      assert ParamSsid !in params;
      assert o.vol == Write(v, PassPath, value);
    }
  }

  /**
   * The echoed body equals what the page shows afterwards exactly when the
   * write opened and the value holds no NUL byte (the stored text is the
   * C string of the value, the echo is the whole value).
   */
  lemma {:induction false} EchoMatchesStored(v: Volume, params: map<string, string>)
    requires ParamSsid in params
    requires WriteOpens(v, SsidPath)
    ensures Processor(HandleGet(v, params).vol, ParamSsid) == HandleGet(v, params).reply.body
      <==> NoNul(params[ParamSsid])
  {
    var value := params[ParamSsid];
    assert Read(HandleGet(v, params).vol, SsidPath) == CString(value);
  }

  /** The two provisioning forms are independent: submitting them in either order gives the same store. */
  lemma {:induction false} SubmissionsCommute(v: Volume, ssid: string, pass: string)
    ensures HandleGet(HandleGet(v, map[ParamSsid := ssid]).vol, map[ParamPass := pass]).vol
         == HandleGet(HandleGet(v, map[ParamPass := pass]).vol, map[ParamSsid := ssid]).vol
  {
    var s := map[ParamSsid := ssid];
    var p := map[ParamPass := pass];
    assert ParamSsid !in p;
    assert HandleGet(v, s).vol == Write(v, SsidPath, ssid);
    assert HandleGet(v, p).vol == Write(v, PassPath, pass);
    assert HandleGet(Write(v, SsidPath, ssid), p).vol == Write(Write(v, SsidPath, ssid), PassPath, pass);
    assert HandleGet(Write(v, PassPath, pass), s).vol == Write(Write(v, PassPath, pass), SsidPath, ssid);
    WritesCommute(v, SsidPath, ssid, PassPath, pass);
  }

  /** Saving the password "Secr3t" makes the next page render show it in the password field. */
  lemma PasswordSecr3tRenders(v: Volume)
    requires WriteOpens(v, PassPath)
    ensures Processor(HandleGet(v, map[ParamPass := "Secr3t"]).vol, ParamPass) == "Secr3t"
  {
    var secret := "Secr3t";
    assert NoNul(secret) by {
      forall i | 0 <= i < |secret| ensures secret[i] != NUL {}
    }
    assert CString(secret) == secret;
    assert ParamPass != ParamSsid by { assert ParamPass[5] != ParamSsid[5]; }
    assert FieldPath(ParamPass) == PassPath;
    SubmitThenRender(v, ParamPass, secret);
  }
}
