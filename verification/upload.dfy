/**
 * The two-phase upload: `uploadUrlRetrieval` asks the discovery endpoint for
 * a destination, then `uploadImageFile` POSTs the multipart body there and,
 * on success, shows the success alert.
 *
 * The sequence is a linear state machine over abstract network replies:
 *
 *   Ready --Start--> Discovering --OnDiscovery--> Uploading --OnUpload--> Uploaded
 *
 * Every failure ends in `Stopped`. Failures only print, so they leave the
 * spinner running and the screen non-interactive. `Trapped` is the
 * force-unwrap of the image URL failing, which ends the app. A success
 * re-enables the screen, so the user may confirm another upload: `Start`
 * applies to every idle state, not only to `Ready`.
 */
module Upload {
  import opened Wrappers
  import opened Text
  import opened JsonValue
  import opened Network
  import opened Multipart

  /** What the upload needs from its surroundings. */
  datatype Env = Env(
    discoveryUrl: Option<string>,  // `uploadURL`, the discovery endpoint
    appId: string,                 // `appID`, the app's fixed identifier
    imageUrl: string,              // `imageURL`, the URL of the image being edited
    boundary: string,              // `UUID().uuidString`, fresh per attempt
    image: seq<byte>,              // `editedImageView.image?.pngData()`, present
    validUrl: string -> bool       // does `URL(string:)` accept the text?
  )

  /** The POST that `uploadImageFile` hands to `Utilities.uploadData`. */
  datatype Request = Request(url: string, httpMethod: string, contentType: string, body: seq<byte>)

  /** The parts of the screen the upload touches. */
  datatype Screen = Screen(spinning: bool, interactive: bool, successAlert: bool)

  datatype Phase =
    | Ready
    | Discovering(endpoint: string)
    | Uploading(request: Request)
    | Uploaded
    | Stopped
    | Trapped

  datatype State = State(phase: Phase, screen: Screen)

  /** The editing screen before the user confirms the upload. */
  const Initial: State := State(Ready, Screen(false, true, false))

  /**
   * No attempt is in flight and the app is alive. While discovery or the
   * POST runs, the screen is non-interactive, so the upload cannot be
   * confirmed again.
   */
  predicate Idle(s: State) {
    s.phase.Ready? || s.phase.Uploaded? || s.phase.Stopped?
  }

  /**
   * The destination in a discovery reply: a delivered body that decodes to an
   * object whose `url` is a string that `URL(string:)` accepts.
   */
  function Destination(reply: Reply<Option<Json>>, validUrl: string -> bool): (r: Option<string>)
    ensures r.Some? <==>
      && reply.Delivered? && reply.data.Some? && reply.data.value.JObject?
      && StringAt(reply.data.value.fields, "url").Some?
      && validUrl(StringAt(reply.data.value.fields, "url").value)
    ensures r.Some? ==> reply.data.value.fields["url"] == JString(r.value) && validUrl(r.value)
  {
    match reply
    case Failed => None
    case Delivered(decoded) =>
      if decoded.None? || !decoded.value.JObject? then None
      else match StringAt(decoded.value.fields, "url")
        case None => None
        case Some(u) => if validUrl(u) then Some(u) else None
  }

  /** The request `uploadImageFile` builds for a destination. */
  function BuildRequest(dest: string, endpoint: string, env: Env): (r: Request)
    ensures r.url == dest && r.httpMethod == "POST"
    ensures BoundaryParam(r.contentType) == Some(env.boundary)
    ensures r.body == Encode(env.boundary, FormParts(env.appId, endpoint, env.image))
  {
    BoundaryParamOfHeader(env.boundary);
    MatchesReference(env.imageUrl, env.boundary, env.appId, endpoint, env.image);
    Request(dest, "POST", ContentTypeHeader(env.boundary),
            CreateMultipartFormData(env.imageUrl, env.boundary, env.appId, endpoint, env.image))
  }

  /**
   * `uploadUrlRetrieval` up to the GET: without an endpoint the screen stays
   * as it was. The success alert of an earlier attempt is modal, so it was
   * dismissed before the upload could be confirmed again.
   */
  function Start(env: Env, s: State): (s': State)
    requires Idle(s)
    ensures s'.phase.Discovering? <==> env.discoveryUrl.Some?
    ensures s'.phase.Discovering? ==> s'.phase.endpoint == env.discoveryUrl.value
    ensures s'.phase.Discovering? ==> s'.screen == Screen(true, false, false)
    ensures !s'.phase.Discovering? ==> s'.phase.Stopped? && s'.screen == s.screen.(successAlert := false)
  {
    var screen := s.screen.(successAlert := false);
    match env.discoveryUrl
    case None => State(Stopped, screen)
    case Some(endpoint) => State(Discovering(endpoint), screen.(spinning := true, interactive := false))
  }

  /**
   * The discovery reply arrives: with a destination, build and issue the POST
   * (trapping first if the image URL does not parse); otherwise stop.
   */
  function OnDiscovery(env: Env, s: State, reply: Reply<Option<Json>>): (s': State)
    requires s.phase.Discovering?
    ensures s'.screen == s.screen
    ensures s'.phase.Uploading? <==> Destination(reply, env.validUrl).Some? && env.validUrl(env.imageUrl)
    ensures s'.phase.Trapped? <==> Destination(reply, env.validUrl).Some? && !env.validUrl(env.imageUrl)
    ensures s'.phase.Stopped? <==> Destination(reply, env.validUrl).None?
    ensures s'.phase.Uploading? ==>
      s'.phase.request == BuildRequest(Destination(reply, env.validUrl).value, s.phase.endpoint, env)
  {
    match Destination(reply, env.validUrl)
    case None => s.(phase := Stopped)
    case Some(dest) =>
      if !env.validUrl(env.imageUrl) then s.(phase := Trapped)
      else s.(phase := Uploading(BuildRequest(dest, s.phase.endpoint, env)))
  }

  /** The upload reply arrives: success stops the spinner, re-enables the screen and shows the alert. */
  function OnUpload(s: State, reply: Reply<seq<byte>>): (s': State)
    requires s.phase.Uploading?
    ensures s'.phase.Uploaded? <==> reply.Delivered?
    ensures s'.phase.Uploaded? ==> s'.screen == Screen(false, true, true)
    ensures !s'.phase.Uploaded? ==> s'.phase.Stopped? && s'.screen == s.screen
  {
    match reply
    case Failed => s.(phase := Stopped)
    case Delivered(_) => State(Uploaded, Screen(false, true, true))
  }

  /** What one upload attempt did: the POST it issued, if any, and where it ended. */
  datatype Trace = Trace(posted: Option<Request>, final: State)

  /**
   * One attempt from an idle state, given the two network replies: it ends
   * uploaded, stopped or trapped, and only an attempt that issued its POST
   * can end uploaded.
   */
  function RunFrom(env: Env, s: State, discovery: Reply<Option<Json>>, upload: Reply<seq<byte>>): (t: Trace)
    requires Idle(s)
    ensures t.final.phase.Uploaded? || t.final.phase.Stopped? || t.final.phase.Trapped?
    ensures t.final.phase.Uploaded? ==> t.posted.Some?
  {
    var s1 := Start(env, s);
    if !s1.phase.Discovering? then Trace(None, s1)
    else
      var s2 := OnDiscovery(env, s1, discovery);
      if !s2.phase.Uploading? then Trace(None, s2)
      else Trace(Some(s2.phase.request), OnUpload(s2, upload))
  }

  /** The first attempt, from the editing screen as it opens. */
  function Run(env: Env, discovery: Reply<Option<Json>>, upload: Reply<seq<byte>>): (t: Trace)
    ensures t.final.phase.Uploaded? || t.final.phase.Stopped? || t.final.phase.Trapped?
    ensures t.final.phase.Uploaded? ==> t.posted.Some?
  {
    RunFrom(env, Initial, discovery, upload)
  }

  /**
   * A POST is issued exactly when there is an endpoint, discovery yields a
   * destination and the image URL parses; it goes to the destination, carries
   * the boundary it was built with, and its body encodes the three fields with
   * the endpoint as `original`.
   */
  lemma PostOnlyAfterDiscovery(env: Env, discovery: Reply<Option<Json>>, upload: Reply<seq<byte>>)
    ensures var t := Run(env, discovery, upload);
      t.posted.Some? <==>
        env.discoveryUrl.Some? && Destination(discovery, env.validUrl).Some? && env.validUrl(env.imageUrl)
    ensures var t := Run(env, discovery, upload);
      t.posted.Some? ==>
        && t.posted.value.url == Destination(discovery, env.validUrl).value
        && t.posted.value.httpMethod == "POST"
        && BoundaryParam(t.posted.value.contentType) == Some(env.boundary)
        && t.posted.value.body == Encode(env.boundary, FormParts(env.appId, env.discoveryUrl.value, env.image))
  {
  }

  /** The boundary the Content-Type header announces is the one that opens the body. */
  lemma HeaderBoundaryOpensBody(env: Env, discovery: Reply<Option<Json>>, upload: Reply<seq<byte>>)
    requires Run(env, discovery, upload).posted.Some?
    ensures var r := Run(env, discovery, upload).posted.value;
      BoundaryParam(r.contentType).Some? && IsPrefix(Utf8(OpenLine(BoundaryParam(r.contentType).value)), r.body)
  {
    var r := Run(env, discovery, upload).posted.value;
    EncodeFraming(env.boundary, FormParts(env.appId, env.discoveryUrl.value, env.image));
  }

  /** The success alert is shown exactly when a POST was issued and delivered. */
  lemma AlertOnlyOnUploadSuccess(env: Env, discovery: Reply<Option<Json>>, upload: Reply<seq<byte>>)
    ensures var t := Run(env, discovery, upload);
      t.final.screen.successAlert <==> t.posted.Some? && upload.Delivered?
    ensures var t := Run(env, discovery, upload);
      t.final.phase.Uploaded? <==> t.final.screen.successAlert
  {
  }

  /**
   * Once the GET was started, every ending other than success leaves the
   * spinner running and the screen non-interactive.
   */
  lemma FailureLeavesScreenLocked(env: Env, discovery: Reply<Option<Json>>, upload: Reply<seq<byte>>)
    requires env.discoveryUrl.Some?
    ensures var t := Run(env, discovery, upload);
      !t.final.phase.Uploaded? ==> t.final.screen.spinning && !t.final.screen.interactive
    ensures var t := Run(env, discovery, upload);
      t.final.phase.Uploaded? || t.final.phase.Stopped? || t.final.phase.Trapped?
  {
  }

  /** Without a POST, the upload reply is never consulted. */
  lemma NoPostNoUploadEffect(env: Env, discovery: Reply<Option<Json>>, u1: Reply<seq<byte>>, u2: Reply<seq<byte>>)
    requires Run(env, discovery, u1).posted.None?
    ensures Run(env, discovery, u1) == Run(env, discovery, u2)
  {
  }

  /** The screen stays consistent: interactive exactly when not spinning, alert only once uploaded. */
  predicate Consistent(s: State) {
    && (s.screen.interactive <==> !s.screen.spinning)
    && (s.screen.successAlert ==> s.phase.Uploaded?)
  }

  lemma StepsKeepConsistent(env: Env, s: State, discovery: Reply<Option<Json>>, upload: Reply<seq<byte>>)
    requires Consistent(s)
    ensures Idle(s) ==> Consistent(Start(env, s))
    ensures s.phase.Discovering? ==> Consistent(OnDiscovery(env, s, discovery))
    ensures s.phase.Uploading? ==> Consistent(OnUpload(s, upload))
  {
  }

  /**
   * After a successful upload the screen is back to how it opened, so a
   * second attempt, with any inputs, behaves exactly as a first one would.
   */
  lemma RepeatAfterSuccess(env: Env, discovery: Reply<Option<Json>>, upload: Reply<seq<byte>>,
                           env2: Env, discovery2: Reply<Option<Json>>, upload2: Reply<seq<byte>>)
    requires Run(env, discovery, upload).final.phase.Uploaded?
    ensures Idle(Run(env, discovery, upload).final)
    ensures RunFrom(env2, Run(env, discovery, upload).final, discovery2, upload2) == Run(env2, discovery2, upload2)
  {
  }

  // ---------------------------------------------------------------------
  // Worked scenarios
  // ---------------------------------------------------------------------

  /** A discovery body `{"url": "https://example.test/put/abc123"}` sends the POST to exactly that URL. */
  lemma ScenarioDestinationUsed(env: Env, upload: Reply<seq<byte>>)
    requires env.discoveryUrl.Some? && env.validUrl(env.imageUrl)
    requires env.validUrl("https://example.test/put/abc123")
    ensures var reply := Delivered(Some(JObject(map["url" := JString("https://example.test/put/abc123")])));
      var t := Run(env, reply, upload);
      t.posted.Some? && t.posted.value.url == "https://example.test/put/abc123"
  {
  }

  /** A discovery body `{"status": "ok"}` has no `url`: no POST, no alert. */
  lemma ScenarioMissingUrl(env: Env, upload: Reply<seq<byte>>)
    ensures var reply := Delivered(Some(JObject(map["status" := JString("ok")])));
      var t := Run(env, reply, upload);
      t.posted.None? && !t.final.screen.successAlert
  {
    var obj := map["status" := JString("ok")];
    assert "url" !in obj;
  }

  /** A failed discovery (a 503, say) issues no POST. */
  lemma ScenarioDiscoveryFails(env: Env, upload: Reply<seq<byte>>)
    ensures Run(env, Failed, upload).posted.None?
  {
  }
}
