/** `process_message`: from one decoded request to one reply. The request
    is checked for a URL first and for a known action second; a known
    action selects a fixed download profile, the common options are merged
    into it, and the download engine is called with the result. Every
    failure, the engine's included, becomes an error reply. */
module Dispatcher {
  import opened Json

  /** The options object handed to the download engine. */
  type Options = map<string, Json>

  /** What the download engine does with one call: the path of the file it
      produced, or the text of the exception it raised. */
  datatype DownloadResult = Ok(path: string) | Fail(message: string)

  /** The download engine (`yt_dlp.YoutubeDL(opts).extract_info(url)` followed
      by `prepare_filename`) for one request, which does network and disk
      work the model does not see. A run asks a fresh one for every request
      (`Session.Engines`). */
  type Downloader = (Json, Options) -> DownloadResult

  const VIDEO_HOME: string := "/home/an/Videos"
  const MUSIC_HOME: string := "/home/an/Music"
  const NOTICE_PREFIX: string := "Download completed: "

  /** The three requests the extension can make. */
  predicate KnownAction(action: Json)
  {
    action == JStr("high_quality") || action == JStr("low_quality") || action == JStr("audio")
  }

  function Paths(home: string): Json
  {
    JObj(map["home" := JStr(home)])
  }

  /** The profile of options fixed for each action, None for any other value. */
  function Profile(action: Json): Option<Options>
  {
    if action == JStr("high_quality") then
      Some(map["format_sort" := JArr([JStr("res:720"), JStr("+size")]), "paths" := Paths(VIDEO_HOME)])
    else if action == JStr("low_quality") then
      Some(map["format_sort" := JArr([JStr("+res:360"), JStr("+size")]), "paths" := Paths(VIDEO_HOME)])
    else if action == JStr("audio") then
      Some(map["format" := JStr("ba"), "format_sort" := JArr([JStr("+size")]), "paths" := Paths(MUSIC_HOME)])
    else
      None
  }

  /** The options every download gets, whatever its action. */
  function CommonOptions(): Options
  {
    map[
      "outtmpl" := JObj(map["default" := JStr("%(title)s.%(ext)s")]),
      "quiet" := JBool(true),
      "no_warnings" := JBool(true),
      "verbose" := JBool(false),
      "noprogress" := JBool(true),
      "proxy" := JStr("socks://127.0.0.1:1080")
    ]
  }

  /** `profile.update(common)`: every key of either, the value from `common`
      where both have one. */
  function Merge(profile: Options, common: Options): (opts: Options)
    ensures opts.Keys == profile.Keys + common.Keys
    ensures forall k :: k in common ==> opts[k] == common[k]
    ensures forall k :: k in profile && k !in common ==> opts[k] == profile[k]
  {
    profile + common
  }

  function ErrorReply(message: string): Json
  {
    JObj(map["status" := JStr("error"), "message" := JStr(message)])
  }

  function SuccessReply(action: Json, url: Json): Json
  {
    JObj(map["status" := JStr("success"), "action" := action, "url" := url])
  }

  /** What `process_message` decides before any download: a reply right
      away, or a call of the download engine. */
  datatype Step =
    | Respond(reply: Json)
    | Download(url: Json, action: Json, options: Options)

  /** The checks of `process_message`, in its order. A request that is not a
      JSON object has no `get` method; the AttributeError that raises is
      caught like every other exception and its text becomes the reply. */
  function Plan(request: Json): Step
  {
    match request
    case JObj(fields) =>
      var url := Get(fields, "url");
      var action := Get(fields, "action");
      if !Truthy(url) then Respond(ErrorReply("No URL provided"))
      else
        (match Profile(action)
         case None => Respond(ErrorReply("Unknown action"))
         case Some(profile) => Download(url, action, Merge(profile, CommonOptions())))
    case _ => Respond(ErrorReply("'" + TypeName(request) + "' object has no attribute 'get'"))
  }

  /** `process_message(request)` with `download` as the download engine. */
  function Process(request: Json, download: Downloader): (reply: Json)
    ensures reply.JObj? && "status" in reply.fields
    ensures reply.fields["status"] == JStr("success") || reply.fields["status"] == JStr("error")
    ensures reply.fields["status"] == JStr("success") ==>
              && request.JObj?
              && Truthy(Get(request.fields, "url")) && KnownAction(Get(request.fields, "action"))
              && reply == SuccessReply(Get(request.fields, "action"), Get(request.fields, "url"))
    ensures reply.fields["status"] == JStr("error") ==>
              reply.fields.Keys == {"status", "message"} && reply.fields["message"].JStr?
  {
    match Plan(request)
    case Respond(reply) => reply
    case Download(url, action, options) =>
      match download(url, options)
      case Ok(_) => SuccessReply(action, url)
      case Fail(message) => ErrorReply(message)
  }

  /** `os.path.basename`: the part of `path` after its last '/'. */
  function Basename(path: string): (name: string)
    ensures '/' !in name
    ensures |name| <= |path| && name == path[|path| - |name|..]
    ensures |name| < |path| ==> path[|path| - |name| - 1] == '/'
  {
    if path == [] || path[|path| - 1] == '/' then []
    else Basename(path[..|path| - 1]) + [path[|path| - 1]]
  }

  /** The contract of Basename determines it: the only suffix of `path`
      without a '/' that is either all of `path` or preceded by a '/'. */
  lemma BasenameUnique(path: string, name: string)
    requires '/' !in name && |name| <= |path| && name == path[|path| - |name|..]
    requires |name| < |path| ==> path[|path| - |name| - 1] == '/'
    ensures Basename(path) == name
  {
  }

  /** The text of the desktop notification `process_message` sends after a
      download, None when it sends none. Sending it is fire-and-forget and
      has no bearing on the reply. */
  function Notification(request: Json, download: Downloader): (text: Option<string>)
    ensures text.Some? <==> Plan(request).Download? && download(Plan(request).url, Plan(request).options).Ok?
    ensures text.Some? ==> |NOTICE_PREFIX| <= |text.value| && text.value[..|NOTICE_PREFIX|] == NOTICE_PREFIX
    ensures text.Some? ==>
              var path := download(Plan(request).url, Plan(request).options).path;
              var name := text.value[|NOTICE_PREFIX|..];
              && '/' !in name && |name| <= |path| && name == path[|path| - |name|..]
              && (|name| < |path| ==> path[|path| - |name| - 1] == '/')
  {
    match Plan(request)
    case Respond(_) => None
    case Download(url, action, options) =>
      match download(url, options)
      case Ok(path) => Some(NOTICE_PREFIX + Basename(path))
      case Fail(_) => None
  }

  /** The URL is checked before the action: a request without a truthy
      `url` gets "No URL provided" whatever its action, and the engine is
      not called. */
  lemma MissingUrl(fields: map<string, Json>, download: Downloader)
    requires !Truthy(Get(fields, "url"))
    ensures Plan(JObj(fields)) == Respond(ErrorReply("No URL provided"))
    ensures Process(JObj(fields), download) == ErrorReply("No URL provided")
  {
  }

  /** A request with a URL and any action but the three known ones gets
      "Unknown action", and the engine is not called. */
  lemma UnknownAction(fields: map<string, Json>, download: Downloader)
    requires Truthy(Get(fields, "url")) && !KnownAction(Get(fields, "action"))
    ensures Plan(JObj(fields)) == Respond(ErrorReply("Unknown action"))
    ensures Process(JObj(fields), download) == ErrorReply("Unknown action")
  {
  }

  /** A request that is not a JSON object makes the first `.get` raise
      AttributeError, which is caught: the reply names the value's type, and
      the engine is not called. */
  lemma NonObjectRequest(request: Json, download: Downloader)
    requires !request.JObj?
    ensures Plan(request).Respond?
    ensures Process(request, download) == ErrorReply("'" + TypeName(request) + "' object has no attribute 'get'")
  {
  }

  /** The engine is called exactly for objects with a truthy `url` and a
      known `action`, with that URL, and with that action's profile merged
      with the common options. */
  lemma DownloadPrecondition(request: Json)
    ensures Plan(request).Download?
            <==> request.JObj? && Truthy(Get(request.fields, "url")) && KnownAction(Get(request.fields, "action"))
    ensures Plan(request).Download? ==>
              && Plan(request).url == Get(request.fields, "url")
              && Plan(request).action == Get(request.fields, "action")
              && Plan(request).options == Merge(Profile(Plan(request).action).value, CommonOptions())
  {
  }

  /** When no download is planned the engine plays no part: any two engines
      give the same reply and no notification. */
  lemma RespondIgnoresEngine(request: Json, d1: Downloader, d2: Downloader)
    requires Plan(request).Respond?
    ensures Process(request, d1) == Process(request, d2) == Plan(request).reply
    ensures Notification(request, d1) == None
  {
  }

  /** The fixed profiles: each known action has its own format order
      (at most 720p for `high_quality`, the smallest from 360p up for
      `low_quality`, the smallest for `audio`) and an output directory
      (music for `audio`, videos otherwise), and only `audio` selects a
      format of its own. */
  lemma ProfileTable(action: Json)
    ensures Profile(action).Some? <==> KnownAction(action)
    ensures Profile(action).Some? ==>
              var p := Profile(action).value;
              && p.Keys == (if action == JStr("audio") then {"format", "format_sort", "paths"} else {"format_sort", "paths"})
              && p["paths"] == Paths(if action == JStr("audio") then MUSIC_HOME else VIDEO_HOME)
              && p["format_sort"] == JArr(if action == JStr("high_quality") then [JStr("res:720"), JStr("+size")]
                                          else if action == JStr("low_quality") then [JStr("+res:360"), JStr("+size")]
                                          else [JStr("+size")])
              && (action == JStr("audio") ==> p["format"] == JStr("ba"))
  {
  }

  /** The merge adds the six common options and changes none of the
      profile's own: no profile shares a key with the common options. */
  lemma MergeKeepsProfile(action: Json)
    requires KnownAction(action)
    ensures var p := Profile(action).value;
            var opts := Merge(p, CommonOptions());
            && p.Keys !! CommonOptions().Keys
            && opts.Keys == p.Keys + {"outtmpl", "quiet", "no_warnings", "verbose", "noprogress", "proxy"}
            && (forall k :: k in p ==> opts[k] == p[k])
  {
    var p := Profile(action).value;
    assert CommonOptions().Keys == {"outtmpl", "quiet", "no_warnings", "verbose", "noprogress", "proxy"};
  }

  /** After a planned download the reply is success, echoing the request's
      action and URL, exactly when the engine succeeded; otherwise it is an
      error carrying the engine's message. */
  lemma DownloadOutcome(request: Json, download: Downloader)
    requires Plan(request).Download?
    ensures var step := Plan(request);
            match download(step.url, step.options)
            case Ok(_) => Process(request, download)
                          == SuccessReply(Get(request.fields, "action"), Get(request.fields, "url"))
            case Fail(message) => Process(request, download) == ErrorReply(message)
  {
  }

  /** Sample: an empty request has no URL. */
  lemma SampleEmptyRequest(download: Downloader)
    ensures Process(JObj(map[]), download) == ErrorReply("No URL provided")
  {
  }

  /** Sample: an action outside the three known ones. */
  lemma SampleBogusAction(download: Downloader)
    ensures Process(JObj(map["url" := JStr("http://x"), "action" := JStr("bogus")]), download)
            == ErrorReply("Unknown action")
  {
  }

  /** Sample: the engine fails with "timeout"; the reply carries that text. */
  lemma SampleEngineFailure(download: Downloader)
    requires forall url, opts :: download(url, opts) == Fail("timeout")
    ensures Process(JObj(map["url" := JStr("http://x"), "action" := JStr("audio")]), download)
            == ErrorReply("timeout")
  {
    var request := JObj(map["url" := JStr("http://x"), "action" := JStr("audio")]);
    assert Plan(request).Download?;
  }

  /** Sample: the engine produces `/videos/My Title.mp4`; the reply echoes
      the request. */
  lemma SampleSuccess(download: Downloader)
    requires forall url, opts :: download(url, opts) == Ok("/videos/My Title.mp4")
    ensures Process(JObj(map["url" := JStr("http://x"), "action" := JStr("high_quality")]), download)
            == SuccessReply(JStr("high_quality"), JStr("http://x"))
  {
    var request := JObj(map["url" := JStr("http://x"), "action" := JStr("high_quality")]);
    assert Plan(request).Download?;
  }

  /** The notification names the file only: for a path `dir/name` it
      shows `name`, for instance "My Title.mp4" for `/videos/My Title.mp4`. */
  lemma BasenameOfJoin(dir: string, name: string)
    requires '/' !in name
    ensures Basename(dir + "/" + name) == name
  {
    var path := dir + "/" + name;
    assert path[|path| - |name|..] == name;
    assert path[|path| - |name| - 1] == '/';
    BasenameUnique(path, name);
  }
}
