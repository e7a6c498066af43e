# Native-messaging host of YouTubeDownloader, in Dafny

The host is a process the browser extension starts. It talks to the
extension over standard input and output. Each message on either stream is
a frame: a 4-byte unsigned length, then that many bytes of UTF-8 JSON. The
host reads one request (`{"url": …, "action": …}`), picks the download
options for the action, calls the download engine, and writes one reply
(`{"status": "success", "action": …, "url": …}` or
`{"status": "error", "message": …}`). It does this until its input ends or
a reply cannot be sent.

The model has one module per part of `app/youtube_downloader.py`:

- `Bytes`: the 4-byte length field. It is packed and unpacked little-endian. The source uses the native order (`"@I"`), and the model fixes it.
- `Json`: decoded JSON values, Python truthiness, and the JSON/UTF-8 codec. The codec is a value `Codec(dumps, loads)` passed in as a parameter. The only assumption made about it is `Json.Sound`: `loads` gives back what `dumps` produced.
- `Framing`: `read_message` and `send_message` as functions of the byte stream. It also holds the constants `HEADER_SIZE`, `MAX_INCOMING` (64 MiB) and `MAX_OUTGOING` (1 MiB), and the round-trip, ceiling and truncation lemmas.
- `Dispatcher`: `process_message`. `Plan` does the URL check first and the action check second, and looks up the fixed profile. `Merge` is the merge of the common options. `Process` builds the reply, with the download engine as a function parameter returning `Ok(path)` or `Fail(message)`. `Notification` gives the text of the desktop notification.
- `Session`: the `main` loop as a function (`Serve`) from the whole input to the requests read, the replies written, the bytes written and the stopping position. `Serve` takes the answer to each request as a function of the turn (`Responder`). `process_message` builds a fresh engine each time `main` calls it, once per request, so `AtTurn(engines)` is `process_message` with the engine as it is at that turn (`engines(n)` for the `n`-th request). The same request can therefore fail and then succeed when it is sent again.
- `Host`: class `Stdio`, which holds the input bytes, the read position and the output. It has the imperative `_read_exact` loop (reads come in chunks of any size), `read_message`, `send_message` and the `main` loop. Each method is proved to do what the `Framing` and `Session` functions say.

Where the code departs from the intended design of the protocol, the model follows the code:

- A stream that ends inside the payload gives `None`. So does a declared length over 64 MiB, and so does a payload that does not decode. The intended design treats the first case as a decode error, distinct from end of stream. The code cannot tell these apart, and in every case the loop stops.
- A payload that decodes to JSON `null` also makes `read_message` return `None`, so it stops the loop.
- The URL check is Python truthiness (`if not url`), not "a non-empty string". A request such as `{"url": 5, "action": "audio"}` reaches the download engine.
- A request that is not a JSON object makes `input_data.get` raise. That exception is caught, and the reply is `{"status": "error", "message": "'list' object has no attribute 'get'"}` (with the right type name).

## Model

| member | source | states |
|---|---|---|
| `Bytes.EncodeU32` | app/youtube_downloader.py:94 | the packed length field is exactly 4 bytes |
| `Bytes.DecodeU32` | app/youtube_downloader.py:59 | an unpacked length field is below 2^32 |
| `Bytes.DecodeEncode` | app/youtube_downloader.py:94 | unpacking a packed length gives the length back |
| `Bytes.EncodeDecode` | app/youtube_downloader.py:59 | packing an unpacked header gives the same 4 bytes, so each header encodes exactly one length |
| `Framing.ReadRaw` | app/youtube_downloader.py:57-65 | reading a frame never moves the position backwards or past the end of the input |
| `Framing.ReadFrame` | app/youtube_downloader.py:50-77 | a message is produced only after at least the 4 header bytes are consumed, and is never `null`/None |
| `Framing.Frame` | app/youtube_downloader.py:94-95 | a frame is 4 + len bytes, its header decodes to len, and the rest is the payload |
| `Framing.OutgoingFrame` | app/youtube_downloader.py:87-95 | a frame is produced exactly when the payload encodes and is at most 1 MiB (so exactly 1 MiB is allowed), and it is that payload's length field followed by the payload |
| `Framing.FrameRoundTrip` | app/youtube_downloader.py:58-65 | a frame with a payload of at most 64 MiB reads back as the same payload and consumes exactly 4 + len bytes, whatever comes before or after it |
| `Framing.OutgoingRoundTrip` | app/youtube_downloader.py:88-95 | with a sound codec, the bytes `send_message` writes read back as the same message, consuming exactly the frame |
| `Framing.IncomingCeiling` | app/youtube_downloader.py:62-63 | a declared length is refused if and only if it is over 64 MiB (so exactly 64 MiB is accepted); a refused frame gives None and consumes only the header |
| `Framing.TruncatedFrame` | app/youtube_downloader.py:41-45 | an input that ends inside the header or inside the declared payload gives None and leaves the position at the end of the input |
| `Framing.MessageFromCompleteFrame` | app/youtube_downloader.py:65-68 | a message comes only from a complete frame: the declared length is within the ceiling, all of the payload was consumed, and the message is what that payload decodes to |
| `Framing.UndecodablePayload` | app/youtube_downloader.py:68-74 | a complete payload that does not decode (or decodes to `null`) gives None after the whole frame is consumed |
| `Json.Truthy` | app/youtube_downloader.py:123 | Python truthiness of a decoded value, the test of `if not url`; `MissingUrl` and `DownloadPrecondition` state what it decides |
| `Json.TypeName` | app/youtube_downloader.py:166-168 | the Python type name that the AttributeError text (lines 166-168) of a non-object request carries, raised by the `.get` at line 119; `Plan` builds that reply from it |
| `Dispatcher.Profile` | app/youtube_downloader.py:127-144 | the action-to-options table; `ProfileTable` states that it is defined exactly for the three actions and gives each entry's keys, its `format_sort` list (`res:720` and `+size` for high_quality, `+res:360` and `+size` for low_quality, `+size` for audio), its output directory, and audio's `format` |
| `Dispatcher.CommonOptions` | app/youtube_downloader.py:147-156 | the six options every download gets; `MergeKeepsProfile` states that they share no key with any profile and that the merge adds exactly them |
| `Dispatcher.Plan` | app/youtube_downloader.py:119-144 | the `.get` calls, the URL check before the action check, and the caught AttributeError reply of lines 166-168 for a non-object request; `DownloadPrecondition`, `MissingUrl`, `UnknownAction` and `NonObjectRequest` state when it plans a download and which reply it gives otherwise |
| `Dispatcher.Merge` | app/youtube_downloader.py:147-156 | the merged options have every key of either side, the common options' values, and the profile's value wherever the common options have no entry |
| `Dispatcher.Process` | app/youtube_downloader.py:109-168 | a reply is either an error with status and message only, or a success that echoes the request's action and URL; it is a success only for an object request with a truthy URL and a known action |
| `Dispatcher.Basename` | app/youtube_downloader.py:162 | the result is the suffix of the path that contains no '/' and is either the whole path or preceded by a '/' |
| `Dispatcher.BasenameUnique` | app/youtube_downloader.py:162 | those three properties determine the basename uniquely |
| `Dispatcher.BasenameOfJoin` | app/youtube_downloader.py:160-162 | the basename of `dir/name` is `name` |
| `Dispatcher.Notification` | app/youtube_downloader.py:158-163 | a notification is sent exactly when a download was planned and the engine succeeded; its text is "Download completed: " followed by the file name of the produced path |
| `Dispatcher.MissingUrl` | app/youtube_downloader.py:123-124 | a request without a truthy URL gets "No URL provided" whatever the action, and no download is planned |
| `Dispatcher.UnknownAction` | app/youtube_downloader.py:143-144 | a request with a URL and an action outside the three known ones gets "Unknown action", and no download is planned |
| `Dispatcher.NonObjectRequest` | app/youtube_downloader.py:166-168 | a request that is not a JSON object gets the caught AttributeError text, `'<type>' object has no attribute 'get'` with its Python type name, and no download is planned |
| `Dispatcher.DownloadPrecondition` | app/youtube_downloader.py:119-158 | a download is planned if and only if the request is an object with a truthy URL and a known action; it uses that URL and the action's profile merged with the common options |
| `Dispatcher.RespondIgnoresEngine` | app/youtube_downloader.py:123-144 | when no download is planned, every engine gives the same reply and no notification is sent |
| `Dispatcher.ProfileTable` | app/youtube_downloader.py:127-142 | a profile exists if and only if the action is known; each profile has its exact format order (`["res:720", "+size"]` for high_quality, `["+res:360", "+size"]` for low_quality, `["+size"]` for audio), its exact key set and an output directory (Music for audio, Videos otherwise); only `audio` sets `"format": "ba"` |
| `Dispatcher.MergeKeepsProfile` | app/youtube_downloader.py:146-156 | the merge adds exactly the six common keys and changes none of the profile's own values |
| `Dispatcher.DownloadOutcome` | app/youtube_downloader.py:158-168 | after a planned download the reply is success (echoing action and URL) if the engine succeeded, and otherwise an error carrying the engine's message |
| `Dispatcher.SampleEmptyRequest` | app/youtube_downloader.py:123-124 | `{}` gets "No URL provided" |
| `Dispatcher.SampleBogusAction` | app/youtube_downloader.py:143-144 | `{"url": "http://x", "action": "bogus"}` gets "Unknown action" |
| `Dispatcher.SampleEngineFailure` | app/youtube_downloader.py:166-168 | an audio request whose engine fails with "timeout" gets the error "timeout" |
| `Dispatcher.SampleSuccess` | app/youtube_downloader.py:165 | a high_quality request whose engine succeeds gets success with that action and URL |
| `Session.Serve` | app/youtube_downloader.py:171-191 | the requests are the decoded requests, in order, stopping at the first None; each reply is the answer at its own turn to the request at the same position, and fits a frame; the loop stops right after a request whose answer cannot be sent; the bytes written are exactly the replies' frames in order |
| `Session.AnswersAt` | app/youtube_downloader.py:182-183 | reply i is the answer, at turn i from the start, to request i, and it fits a frame |
| `Session.AnswersUnsent` | app/youtube_downloader.py:182-185 | when one request more was read than replies were written, that last request's answer at its own turn does not fit a frame |
| `Session.AtTurn` | app/youtube_downloader.py:182 | `process_message` as `main` calls it, with a fresh engine at each turn (the `YoutubeDL` built per call at lines 158-160); `ReplyIsProcess` states that reply i is `process_message` of request i with the engine of turn i |
| `Session.ReplyIsProcess` | app/youtube_downloader.py:158-165 | in the run `main` makes, every reply i is `process_message` of request i with the engine as it is at turn i |
| `Session.RetryReplies` | app/youtube_downloader.py:158-168 | an engine that fails at one turn and succeeds at the next gives the error reply with its message, then the success reply |
| `Session.RetryAfterFailure` | app/youtube_downloader.py:158-185 | a request sent twice whose download fails the first time and succeeds the second gets an error reply and then a success reply, in that order |
| `Session.ServeStep` | app/youtube_downloader.py:174-185 | one iteration: a None read or a failed send writes nothing and stops; otherwise the reply's frame comes before everything the rest of the run writes |
| `Session.ServeWellFormed` | app/youtube_downloader.py:174-191 | a peer that sends well-formed requests and then closes gets exactly one reply per request, in order (when every answer fits at its turn), and the loop stops at the end of the input |
| `Session.OversizeStops` | app/youtube_downloader.py:176-179 | a declared length over 64 MiB ends the loop with no reply and no byte written, after only the header has been consumed |
| `Session.EndOfStreamStops` | app/youtube_downloader.py:176-179 | an input that ends on a frame boundary ends the loop cleanly |
| `Host.Stdio.ReadChunk` | app/youtube_downloader.py:43 | a read returns between 1 and k of the next bytes, and returns no bytes only at end of input |
| `Host.Stdio.ReadExact` | app/youtube_downloader.py:36-47 | if n bytes remain, it returns exactly the next n and advances by n; otherwise it returns None with the rest of the input consumed (loop invariant: the bytes gathered so far are at most n and are the input read since the call began) |
| `Host.Stdio.ReadMessage` | app/youtube_downloader.py:50-77 | returns the message and leaves the position that `Framing.ReadFrame` gives |
| `Host.Stdio.Write` | app/youtube_downloader.py:94-95 | appends the bytes to the output |
| `Host.Stdio.SendMessage` | app/youtube_downloader.py:80-101 | returns true and appends exactly the frame, or returns false and writes nothing, as `Framing.OutgoingFrame` decides |
| `Host.Stdio.Run` | app/youtube_downloader.py:171-191 | the output grows by exactly what `Session.Serve` writes with `process_message` answering at each turn with that turn's engine, and the position ends where that run stops |

## Left out

- The download engine (`yt_dlp.YoutubeDL`, `extract_info`, `prepare_filename`) does network and disk work. It is a function parameter, and anything it raises is a `Fail(message)`. Over a run it is one such function per turn (`Session.Engines`), so its outcome may differ from request to request. What makes it differ (the network, the disk, earlier downloads) is not modelled.
- The `notify-send` call is an operating-system side effect whose exit status is ignored. Only the string built at line 162 is modelled (`Dispatcher.Notification`). `os.system` hands it to `/bin/sh` inside double quotes, so the shell may expand it before it is shown: a `$` or a backquote in the file name is expanded, and a command inside `$(…)` or backquotes is run. Neither the shell's expansion nor such a command is modelled.
- The download engine and the `notify-send` child are assumed to read nothing from standard input and to write nothing to standard output. The output being exactly the replies' frames (`Session.Serve`, `Host.Stdio.Run`) rests on this. The source relies on the common options (`"quiet"`, `"no_warnings"`, `"noprogress"`, lines 150-153, which keep yt-dlp's own messages and progress display off standard output) and on `notify-send` itself. The child that `os.system` starts inherits the browser's pipes.
- Logging setup and calls are diagnostic output with no effect on behaviour.
- `json.dumps`/`json.loads` and UTF-8 encoding and decoding come from Python's library. They are the `Codec` parameter, and the one assumption about them is `Json.Sound`. NaN and infinite floats are not represented. Neither are strings holding lone surrogates, which `json.loads` builds from escapes such as `"\ud800"`: a Dafny `string` holds Unicode scalar values only. Such a URL, echoed in a success reply, would make the UTF-8 encoding in `send_message` fail and the loop stop. Since the text form of JSON is abstract, so are key order and duplicate keys: a JSON object is a `map`.
- The native byte order and alignment of `"@I"` are platform details. The model fixes little-endian on both the encoding and the decoding side.
- `KeyboardInterrupt` is asynchronous signal delivery and is not modelled.
- Failures of the operating-system streams are not modelled. These are read errors on standard input, and write or flush errors on standard output such as a closed pipe, which could leave part of a frame written. The output always accepts, so in the model `send_message` fails only when the reply cannot be encoded or is over 1 MiB.
- The catch-all handler of `main` (lines 189-191) is never reached in the model, because reading, processing and sending never raise there.
- `add-on/background.js` is not part of this model. It is browser-extension wiring: context-menu listeners, a URL pattern test, and a three-case mapping from menu item to action.
