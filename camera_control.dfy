/** The decision logic of the thermal camera capture script: how request
    URLs are formed for the camera's ISAPI interface, how an HTTP method
    name is dispatched, how a preset update body is written, and the bounded
    retry that moves the camera to a preset until the reported pan/tilt
    position matches the stored one. HTTP and ONVIF calls are not made:
    requests are returned as values and observed positions are inputs. */
module CameraControl {
  import opened Common

  // ---------------------------------------------------------------------
  // Values and constants
  // ---------------------------------------------------------------------

  /** The Python values handed to the URL and body builders. */
  datatype PyValue = PyNone | PyBool(b: bool) | PyInt(i: int) | PyStr(s: string)

  /** `str(v)`, as an f-string or `str.format` writes `v`. */
  function Str(v: PyValue): string {
    match v
    case PyNone => "None"
    case PyBool(b) => if b then "True" else "False"
    case PyInt(i) => IntToString(i)
    case PyStr(s) => s
  }

  /** The module-level `ip` and `camera_id`. */
  const Ip: string := "xxx.xxx.xx.xx"
  const CameraId: int := 2

  /** The values of the `Request` enumeration. */
  const Ptz: string := "PTZCtrl"
  const Thermal: string := "Thermal"
  const Streaming: string := "Streaming"

  // ---------------------------------------------------------------------
  // `build_url`
  // ---------------------------------------------------------------------

  function Upper(c: char): char {
    if 'a' <= c <= 'z' then (c as int - 32) as char else c
  }

  function Lower(c: char): char {
    if 'A' <= c <= 'Z' then (c as int + 32) as char else c
  }

  function LowerAll(s: string): (r: string)
    ensures |r| == |s| && forall i :: 0 <= i < |s| ==> r[i] == Lower(s[i])
  {
    seq(|s|, i requires 0 <= i < |s| => Lower(s[i]))
  }

  /** `str.capitalize` on ASCII text: the first character upper case and
      all the others lower case. */
  function Capitalize(s: string): (r: string)
    ensures |r| == |s|
    ensures s != [] ==> r[0] == Upper(s[0])
  {
    if s == [] then [] else [Upper(s[0])] + LowerAll(s[1..])
  }

  lemma CapitalizeAt(s: string)
    ensures forall i :: 0 < i < |s| ==> Capitalize(s)[i] == Lower(s[i])
  {
  }

  /** A word with an upper-case first letter and lower-case letters after
      it is its own capitalisation. */
  lemma CapitalizeKeeps(s: string)
    requires s != [] && 'A' <= s[0] <= 'Z'
    requires forall i :: 0 < i < |s| ==> 'a' <= s[i] <= 'z'
    ensures Capitalize(s) == s
  {
    CapitalizeAt(s);
  }

  /** `capitalize` lowers the rest of a word, so the PTZ request is spelled
      `Ptzctrl` in URLs. */
  lemma CapitalizePtz()
    ensures Capitalize(Ptz) == "Ptzctrl"
  {
    var c := Capitalize(Ptz);
    CapitalizeAt(Ptz);
    assert c[0] == 'P';
    assert c[1] == Lower('T') == 't';
    assert c[2] == Lower('Z') == 'z';
    assert c[3] == Lower('C') == 'c';
    assert c[4] == 't';
    assert c[5] == 'r';
    assert c[6] == 'l';
  }

  /** The thermal and streaming requests keep their spelling. */
  lemma CapitalizeOthers()
    ensures Capitalize(Thermal) == Thermal
    ensures Capitalize(Streaming) == Streaming
  {
    CapitalizeKeeps(Thermal);
    CapitalizeKeeps(Streaming);
  }

  /** The prefix every URL starts with. */
  function BaseUrl(): string {
    "http://" + Ip + "/ISAPI"
  }

  predicate KnownRequest(request: string) {
    request == Ptz || request == Thermal || request == Streaming
  }

  /** The channel part `build_url` appends for a known request: the
      capitalised request, the camera id and the endpoint, then `/<idPreset>`
      unless it is `None`, then `/<aux>` unless it is `None`. */
  function ChannelPath(word: string, camera: string, endpoint: string, idPreset: PyValue, aux: PyValue): string {
    var path := "/" + word + "/channels/" + camera + "/" + endpoint;
    var path := if idPreset != PyNone then path + "/" + Str(idPreset) else path;
    if aux != PyNone then path + "/" + Str(aux) else path
  }

  /** The focus part `build_url` appends for any other request. */
  function FocusPath(camera: string): string {
    "/System/Video/inputs/channels/" + camera + "/focus"
  }

  /** `build_url`: the base, then either the channel part or the focus
      part. */
  function BuildUrl(endpoint: string, request: string, idPreset: PyValue, aux: PyValue): (url: string)
    ensures StartsWith(url, BaseUrl())
  {
    var camera := IntToString(CameraId);
    var path := if KnownRequest(request) then ChannelPath(Capitalize(request), camera, endpoint, idPreset, aux)
                else FocusPath(camera);
    assert (BaseUrl() + path)[..|BaseUrl()|] == BaseUrl();
    BaseUrl() + path
  }

  /** The path below `/ISAPI` for one of the three known requests, as its
      `/`-separated segments. */
  function Segments(endpoint: string, request: string, idPreset: PyValue, aux: PyValue): seq<string> {
    [Capitalize(request), "channels", IntToString(CameraId), endpoint] + OptSegment(idPreset) + OptSegment(aux)
  }

  /** Each segment preceded by a `/`. */
  function PathOf(segments: seq<string>): string {
    if segments == [] then [] else "/" + segments[0] + PathOf(segments[1..])
  }

  lemma {:induction false} PathOfAppend(a: seq<string>, b: seq<string>)
    ensures PathOf(a + b) == PathOf(a) + PathOf(b)
  {
    if a == [] {
      assert a + b == b;
    } else {
      assert (a + b)[0] == a[0] && (a + b)[1..] == a[1..] + b;
      PathOfAppend(a[1..], b);
      calc {
        PathOf(a + b);
        "/" + a[0] + PathOf(a[1..] + b);
        "/" + a[0] + (PathOf(a[1..]) + PathOf(b));
      }
    }
  }

  lemma PathOfCons(w: string, rest: seq<string>)
    ensures PathOf([w] + rest) == "/" + w + PathOf(rest)
  {
    assert ([w] + rest)[0] == w && ([w] + rest)[1..] == rest;
  }


  /** The optional segment `build_url` adds for a value that is not
      `None`. */
  function OptSegment(v: PyValue): seq<string> {
    if v == PyNone then [] else [Str(v)]
  }

  lemma ChannelsLiteral()
    ensures "/" + "channels" + "/" == "/channels/"
  {
  }

  lemma ChannelPathFixed(word: string, camera: string, endpoint: string)
    ensures "/" + word + "/channels/" + camera + "/" + endpoint == PathOf([word, "channels", camera, endpoint])
  {
    var p3 := "/" + endpoint;
    PathOfCons(endpoint, []);
    assert PathOf([endpoint]) == p3;
    var p2 := "/" + camera + p3;
    PathOfCons(camera, [endpoint]);
    assert [camera] + [endpoint] == [camera, endpoint];
    assert PathOf([camera, endpoint]) == p2;
    var p1 := "/" + "channels" + p2;
    PathOfCons("channels", [camera, endpoint]);
    assert ["channels"] + [camera, endpoint] == ["channels", camera, endpoint];
    assert PathOf(["channels", camera, endpoint]) == p1;
    PathOfCons(word, ["channels", camera, endpoint]);
    assert [word] + ["channels", camera, endpoint] == [word, "channels", camera, endpoint];
    assert PathOf([word, "channels", camera, endpoint]) == "/" + word + p1;
    ChannelsLiteral();
    assert p1 == "/channels/" + camera + "/" + endpoint;
  }

  /** Appending an optional segment appends `/` and its text when the value
      is not `None`. */
  lemma PathOfThen(segments: seq<string>, path: string, v: PyValue)
    requires PathOf(segments) == path
    ensures PathOf(segments + OptSegment(v)) == if v != PyNone then path + "/" + Str(v) else path
  {
    if v == PyNone {
      assert segments + OptSegment(v) == segments;
    } else {
      var w := Str(v);
      PathOfAppend(segments, [w]);
      PathOfCons(w, []);
      assert PathOf([w]) == "/" + w;
      assert path + "/" + w == path + ("/" + w);
    }
  }

  /** The channel part is its segments, each after a `/`. */
  lemma ChannelPathSegments(word: string, camera: string, endpoint: string, idPreset: PyValue, aux: PyValue)
    ensures ChannelPath(word, camera, endpoint, idPreset, aux) ==
      PathOf([word, "channels", camera, endpoint] + OptSegment(idPreset) + OptSegment(aux))
  {
    var fixed := [word, "channels", camera, endpoint];
    var p0 := "/" + word + "/channels/" + camera + "/" + endpoint;
    ChannelPathFixed(word, camera, endpoint);
    PathOfThen(fixed, p0, idPreset);
    var p1 := if idPreset != PyNone then p0 + "/" + Str(idPreset) else p0;
    PathOfThen(fixed + OptSegment(idPreset), p1, aux);
  }

  /** For the three known requests the URL is the base followed by the
      segments: the capitalised request, `channels`, the camera id and the
      endpoint, then the preset id when there is one and then the auxiliary
      part when there is one. */
  lemma BuildUrlSegments(endpoint: string, request: string, idPreset: PyValue, aux: PyValue)
    requires KnownRequest(request)
    ensures BuildUrl(endpoint, request, idPreset, aux) == BaseUrl() + PathOf(Segments(endpoint, request, idPreset, aux))
  {
    ChannelPathSegments(Capitalize(request), IntToString(CameraId), endpoint, idPreset, aux);
  }

  /** Any other request gets the focus URL, whatever the endpoint, the
      preset id and the auxiliary part. */
  lemma BuildUrlFocus(endpoint: string, request: string, idPreset: PyValue, aux: PyValue,
                      endpoint': string, idPreset': PyValue, aux': PyValue)
    requires !KnownRequest(request)
    ensures BuildUrl(endpoint, request, idPreset, aux) == BuildUrl(endpoint', request, idPreset', aux')
    ensures BuildUrl(endpoint, request, idPreset, aux) == BaseUrl() + FocusPath("2")
  {
    assert IntToString(CameraId) == "2";
  }

  /** Skipping a known prefix leaves what follows it. */
  lemma Skip(a: string, b: string)
    ensures StartsWith(a + b, a) && (a + b)[|a|..] == b
  {
    assert (a + b)[..|a|] == a;
  }

  /** Every URL starts with `http://<ip>/ISAPI`, and the camera id is
      written as `2`. */
  lemma UrlPrefix(endpoint: string, request: string, idPreset: PyValue, aux: PyValue)
    ensures StartsWith(BuildUrl(endpoint, request, idPreset, aux), "http://" + Ip + "/ISAPI")
    ensures IntToString(CameraId) == "2"
  {
    var camera := IntToString(CameraId);
    Skip(BaseUrl(), if KnownRequest(request) then ChannelPath(Capitalize(request), camera, endpoint, idPreset, aux)
                    else FocusPath(camera));
  }

  // ---------------------------------------------------------------------
  // `send_request` and `handle_ptz_response`
  // ---------------------------------------------------------------------

  datatype Verb = Get | Put | Post | Delete

  /** The method name `send_request` compares against. */
  function VerbName(v: Verb): string {
    match v
    case Get => "GET"
    case Put => "PUT"
    case Post => "POST"
    case Delete => "DELETE"
  }

  /** The dispatch chain of `send_request`: the verb whose name the method
      is, if any. */
  function ParseVerb(httpMethod: string): (r: Option<Verb>)
    ensures r.Some? ==> VerbName(r.value) == httpMethod
  {
    if httpMethod == "GET" then Some(Get)
    else if httpMethod == "PUT" then Some(Put)
    else if httpMethod == "POST" then Some(Post)
    else if httpMethod == "DELETE" then Some(Delete)
    else None
  }

  /** Every verb is dispatched under its own name, so a method is accepted
      exactly when it is one of the four names. */
  lemma ParseVerbName(v: Verb, httpMethod: string)
    ensures ParseVerb(VerbName(v)) == Some(v)
    ensures ParseVerb(httpMethod).None? <==> forall w: Verb :: VerbName(w) != httpMethod
  {
    if ParseVerb(httpMethod).None? {
      forall w: Verb ensures VerbName(w) != httpMethod {
        match w
        case Get =>
        case Put =>
        case Post =>
        case Delete =>
      }
    }
  }

  /** One HTTP request: `requests.get` sends no body. */
  datatype Call = Call(verb: Verb, url: string, data: Option<string>)

  /** `send_request` with a method outside the four leaves `response`
      unbound and raises `UnboundLocalError`. */
  datatype SendError = UnboundResponse(httpMethod: string)

  function SendRequest(endpoint: string, request: string, idPreset: PyValue, data: Option<string>,
                       httpMethod: string, aux: PyValue): (r: Result<Call, SendError>)
    ensures r.Ok? <==> ParseVerb(httpMethod).Some?
    ensures r.Ok? ==> VerbName(r.value.verb) == httpMethod
    ensures r.Ok? ==> r.value.url == BuildUrl(endpoint, request, idPreset, aux)
    ensures r.Ok? ==> r.value.data == (if r.value.verb == Get then None else data)
  {
    var url := BuildUrl(endpoint, request, idPreset, aux);
    match ParseVerb(httpMethod)
    case None => Err(UnboundResponse(httpMethod))
    case Some(verb) => Ok(Call(verb, url, if verb == Get then None else data))
  }

  /** `send_request` called with the name of a verb, which it always
      dispatches. */
  function SendVerb(endpoint: string, request: string, idPreset: PyValue, data: Option<string>,
                    verb: Verb, aux: PyValue): (c: Call)
    ensures c == Call(verb, BuildUrl(endpoint, request, idPreset, aux), if verb == Get then None else data)
  {
    ParseVerbName(verb, VerbName(verb));
    SendRequest(endpoint, request, idPreset, data, VerbName(verb), aux).value
  }

  /** `handle_ptz_response`: success is status 200 and nothing else. */
  function HandlePtzResponse(statusCode: int): (ok: bool)
    ensures ok <==> statusCode == 200
  {
    statusCode == 200
  }

  // ---------------------------------------------------------------------
  // `updata_preset`
  // ---------------------------------------------------------------------

  /** `enabled == Enabled.true.value`, Python's `==` against the integer 1,
      which `True` also equals. */
  predicate IsEnabledTrue(enabled: PyValue) {
    enabled == PyInt(1) || enabled == PyBool(true)
  }

  /** The name of the `Enabled` member chosen. */
  function EnabledName(enabled: PyValue): string {
    if IsEnabledTrue(enabled) then "true" else "false"
  }

  /** Only 1 (or `True`) enables the preset: the string `'true'` and every
      other value disable it. */
  lemma EnabledMapping(enabled: PyValue)
    ensures EnabledName(enabled) == "true" <==> enabled == PyInt(1) || enabled == PyBool(true)
    ensures EnabledName(enabled) == "true" || EnabledName(enabled) == "false"
    ensures EnabledName(PyStr("true")) == "false"
  {
  }

  /** The fixed text around the three elements of an update body. */
  datatype Tags = Tags(head: string, afterEnabled: string, afterId: string, tail: string)

  const PresetTags: Tags := Tags(
    "<PTZPreset version=\"2.0\" xmlns=\"http://www.isapi.org/ver20/XMLSchema\"><enabled>",
    "</enabled><id>",
    "</id><presetName>",
    "</presetName></PTZPreset>")

  /** The body with the three element texts filled in. */
  function Fill(tags: Tags, enabled: string, id: string, name: string): string {
    tags.head + enabled + tags.afterEnabled + id + tags.afterId + name + tags.tail
  }

  /** The XML body `updata_preset` sends: the enabled name, the id and the
      preset name, in that order. */
  function Payload(enabled: PyValue, id: PyValue, presetName: string): (body: string)
    ensures StartsWith(body, PresetTags.head) && EndsWith(body, PresetTags.tail)
  {
    var body := Fill(PresetTags, EnabledName(enabled), Str(id), presetName);
    assert body[..|PresetTags.head|] == PresetTags.head;
    assert body[|body| - |PresetTags.tail|..] == PresetTags.tail;
    body
  }

  /** The request `updata_preset` sends: a `PUT` of the body to the
      preset's URL. */
  function UpdataPreset(enabled: PyValue, id: PyValue, presetName: string): (c: Call)
    ensures c == Call(Put, BuildUrl("presets", Ptz, id, PyNone), Some(Payload(enabled, id, presetName)))
  {
    SendVerb("presets", Ptz, id, Some(Payload(enabled, id, presetName)), Put, PyNone)
  }

  predicate NoOpenTag(s: string) {
    forall i :: 0 <= i < |s| ==> s[i] != '<'
  }

  /** The longest prefix of `s` without a `<`. */
  function Text(s: string): (t: string)
    ensures t <= s && NoOpenTag(t)
  {
    if s == [] || s[0] == '<' then [] else [s[0]] + Text(s[1..])
  }

  lemma {:induction false} TextOf(t: string, rest: string)
    requires NoOpenTag(t) && rest != [] && rest[0] == '<'
    ensures Text(t + rest) == t
  {
    if t != [] {
      assert (t + rest)[1..] == t[1..] + rest;
      TextOf(t[1..], rest);
    }
  }

  /** Reads the three element texts back out of a body laid out by `tags`. */
  function ParseWith(tags: Tags, s: string): Option<(string, string, string)> {
    if !StartsWith(s, tags.head) then None
    else
      var s1 := s[|tags.head|..];
      var enabled := Text(s1);
      var s2 := s1[|enabled|..];
      if !StartsWith(s2, tags.afterEnabled) then None
      else
        var s3 := s2[|tags.afterEnabled|..];
        var id := Text(s3);
        var s4 := s3[|id|..];
        if !StartsWith(s4, tags.afterId) then None
        else
          var s5 := s4[|tags.afterId|..];
          var name := Text(s5);
          if s5[|name|..] != tags.tail then None
          else Some((enabled, id, name))
  }

  /** Element texts without a `<` are read back as they were filled in. */
  lemma FillRoundTrip(tags: Tags, enabled: string, id: string, name: string)
    requires tags.afterEnabled != [] && tags.afterEnabled[0] == '<'
    requires tags.afterId != [] && tags.afterId[0] == '<'
    requires tags.tail != [] && tags.tail[0] == '<'
    requires NoOpenTag(enabled) && NoOpenTag(id) && NoOpenTag(name)
    ensures ParseWith(tags, Fill(tags, enabled, id, name)) == Some((enabled, id, name))
  {
    var s5 := name + tags.tail;
    var s4 := tags.afterId + s5;
    var s3 := id + s4;
    var s2 := tags.afterEnabled + s3;
    var s1 := enabled + s2;
    assert tags.head + s1 == Fill(tags, enabled, id, name);
    Skip(tags.head, s1);
    TextOf(enabled, s2);
    Skip(enabled, s2);
    Skip(tags.afterEnabled, s3);
    TextOf(id, s4);
    Skip(id, s4);
    Skip(tags.afterId, s5);
    TextOf(name, tags.tail);
    Skip(name, tags.tail);
  }

  /** The body carries, in order, the enabled name, the id and the preset
      name, and they can be read back from it as long as the id and the
      name contain no `<`. */
  lemma PayloadRoundTrip(enabled: PyValue, id: PyValue, presetName: string)
    requires NoOpenTag(Str(id)) && NoOpenTag(presetName)
    ensures ParsePayload(Payload(enabled, id, presetName)) == Some((EnabledName(enabled), Str(id), presetName))
  {
    FillRoundTrip(PresetTags, EnabledName(enabled), Str(id), presetName);
  }

  /** The reading of an update body. */
  function ParsePayload(s: string): Option<(string, string, string)> {
    ParseWith(PresetTags, s)
  }

  // ---------------------------------------------------------------------
  // The retry loop of `get_image`
  // ---------------------------------------------------------------------

  const MaxAttempts: nat := 5

  /** A pan/tilt position as ONVIF reports it. */
  datatype Position = Position(x: real, y: real)

  /** The HTTP requests `get_image` sends, all about the preset it was
      given. */
  datatype Request =
    | GotoPreset     // `goto(idPreset)`
    | TakePicture    // `save_image`
    | ReadPreset     // `get_preset_name_with_id`, inside `updata_preset_file`
    | WritePreset    // `updata_preset(1, idPreset, "Newpreset2")`

  /** The HTTP call behind each request. */
  function CallOf(r: Request, idPreset: PyValue): Call {
    match r
    case GotoPreset => SendVerb("presets", Ptz, idPreset, None, Put, PyStr("goto"))
    case TakePicture => SendVerb("picture", Streaming, PyNone, None, Get, PyNone)
    case ReadPreset => SendVerb("presets", Ptz, idPreset, None, Get, PyNone)
    case WritePreset => UpdataPreset(PyInt(1), idPreset, "Newpreset2")
  }

  /** Moving to the preset is a `PUT` without a body to
      `.../PTZCtrl/channels/2/presets/<id>/goto`. */
  lemma GotoCall(idPreset: PyValue)
    ensures CallOf(GotoPreset, idPreset) == Call(Put, BuildUrl("presets", Ptz, idPreset, PyStr("goto")), None)
    ensures BuildUrl("presets", Ptz, idPreset, PyStr("goto")) ==
      BaseUrl() + PathOf(["Ptzctrl", "channels", "2", "presets"] + OptSegment(idPreset) + ["goto"])
  {
    BuildUrlSegments("presets", Ptz, idPreset, PyStr("goto"));
    CapitalizePtz();
    assert IntToString(CameraId) == "2";
  }

  /** The picture is a `GET` of `.../Streaming/channels/2/picture`. */
  lemma PictureCall(idPreset: PyValue)
    ensures CallOf(TakePicture, idPreset) == Call(Get, BuildUrl("picture", Streaming, PyNone, PyNone), None)
    ensures BuildUrl("picture", Streaming, PyNone, PyNone) ==
      BaseUrl() + PathOf(["Streaming", "channels", "2", "picture"])
  {
    BuildUrlSegments("picture", Streaming, PyNone, PyNone);
    CapitalizeOthers();
    assert IntToString(CameraId) == "2";
  }

  /** The fallback reads the preset with a `GET` of
      `.../Ptzctrl/channels/2/presets/<id>`, then writes it back with a
      `PUT` to the same URL carrying an update body. */
  lemma FallbackCalls(idPreset: PyValue)
    ensures CallOf(ReadPreset, idPreset) == Call(Get, BuildUrl("presets", Ptz, idPreset, PyNone), None)
    ensures CallOf(WritePreset, idPreset) ==
      Call(Put, BuildUrl("presets", Ptz, idPreset, PyNone), Some(Payload(PyInt(1), idPreset, "Newpreset2")))
  {
    assert CallOf(ReadPreset, idPreset) == SendVerb("presets", Ptz, idPreset, None, Get, PyNone);
    assert CallOf(WritePreset, idPreset) == UpdataPreset(PyInt(1), idPreset, "Newpreset2");
  }

  /** The body the fallback writes enables the preset and names it
      `Newpreset2`. */
  lemma FallbackBody(idPreset: PyValue)
    requires NoOpenTag(Str(idPreset))
    ensures ParsePayload(Payload(PyInt(1), idPreset, "Newpreset2")) == Some(("true", Str(idPreset), "Newpreset2"))
  {
    assert NoOpenTag("Newpreset2");
    PayloadRoundTrip(PyInt(1), idPreset, "Newpreset2");
  }

  /** How `get_image` ends: the position matched at attempt `attempt`, or
      every attempt missed and the final position was written back to the
      preset. */
  datatype Capture = Matched(attempt: nat, at: Position) | GaveUp(final: Position)

  /** The first attempt from `k` on whose observed position is the stored
      one, or `MaxAttempts` when there is none. */
  function FirstMatch(observed: nat -> Position, stored: Position, k: nat): (a: nat)
    requires k <= MaxAttempts
    ensures k <= a <= MaxAttempts
    decreases MaxAttempts - k
  {
    if k == MaxAttempts || observed(k) == stored then k
    else FirstMatch(observed, stored, k + 1)
  }

  /** `FirstMatch` is the first matching attempt: all earlier attempts
      missed, and it matched unless it is `MaxAttempts`. */
  lemma {:induction false} FirstMatchIs(observed: nat -> Position, stored: Position, k: nat)
    requires k <= MaxAttempts
    ensures var a := FirstMatch(observed, stored, k);
            && (forall j :: k <= j < a ==> observed(j) != stored)
            && (a < MaxAttempts ==> observed(a) == stored)
    decreases MaxAttempts - k
  {
    if k < MaxAttempts && observed(k) != stored {
      FirstMatchIs(observed, stored, k + 1);
    }
  }

  /** `n` requests to move to the preset. */
  function Gotos(n: nat): (rs: seq<Request>)
    ensures |rs| == n && forall j :: 0 <= j < n ==> rs[j] == GotoPreset
  {
    seq(n, _ => GotoPreset)
  }

  /** What `get_image` does with the positions `observed(0)`, ...,
      `observed(4)` read after each `goto` and `observed(5)` read after the
      loop: the outcome and the requests it sends, in order. */
  function Retry(observed: nat -> Position, stored: Position): (r: (Capture, seq<Request>))
    ensures 2 <= |r.1| <= MaxAttempts + 2
    ensures r.0.Matched? <==> r.1[|r.1| - 1] == TakePicture
  {
    var a := FirstMatch(observed, stored, 0);
    if a < MaxAttempts then (Matched(a, observed(a)), Gotos(a + 1) + [TakePicture])
    else (GaveUp(observed(MaxAttempts)), Gotos(MaxAttempts) + [ReadPreset, WritePreset])
  }

  /** At most five attempts; a match ends the loop before the counter is
      incremented, so it is at attempt at most 4, after as many moves as
      attempts made, and is followed by the picture; the fallback runs
      exactly when all five observations miss, after five moves. */
  lemma RetryOutcome(observed: nat -> Position, stored: Position)
    ensures var (capture, requests) := Retry(observed, stored);
            && (capture.Matched? ==>
                  && capture.attempt < MaxAttempts
                  && capture.at == stored
                  && (forall j :: 0 <= j < capture.attempt ==> observed(j) != stored)
                  && requests == Gotos(capture.attempt + 1) + [TakePicture])
            && (capture.GaveUp? <==> forall j :: 0 <= j < MaxAttempts ==> observed(j) != stored)
            && (capture.GaveUp? ==>
                  && capture.final == observed(MaxAttempts)
                  && requests == Gotos(MaxAttempts) + [ReadPreset, WritePreset])
  {
    FirstMatchIs(observed, stored, 0);
  }

  /** The loop of `get_image`: up to `MaxAttempts` rounds of `goto` and a
      status read, leaving the loop on the first matching position, then
      the fallback when the counter reached `MaxAttempts`. */
  method GetImage(observed: nat -> Position, stored: Position)
    returns (capture: Capture, requests: seq<Request>)
    ensures (capture, requests) == Retry(observed, stored)
  {
    requests := [];
    var attempt: nat := 0;
    capture := GaveUp(observed(MaxAttempts));
    while attempt < MaxAttempts
      invariant attempt <= MaxAttempts
      invariant FirstMatch(observed, stored, attempt) == FirstMatch(observed, stored, 0)
      invariant requests == Gotos(attempt)
    {
      requests := requests + [GotoPreset];
      assert requests == Gotos(attempt + 1);
      var position := observed(attempt);
      if position == stored {
        capture := Matched(attempt, position);
        requests := requests + [TakePicture];
        break;
      }
      attempt := attempt + 1;
    }
    if attempt == MaxAttempts {
      requests := requests + [ReadPreset, WritePreset];
    }
  }
}
