# Karma Portrait relay and bridge, modelled in Dafny

This project models the sequential core of an installation-art pipeline. A
relay server (`server.py`) collects form submissions and satellite image
uploads and broadcasts each one as an event record to every connected
websocket peer. A bridge process (`bridge.py`) takes each `form_submission`
record and does the following:

- it decodes and saves the participant's image;
- it asks an AI service for a JSON analysis, in the vision form when an image was kept;
- it runs an image-to-video job, polling its result up to 30 times;
- it sends the analysis, with the two file paths added, to the visual engine over OSC.

Modules, one per file:

- `Wrappers`: the Option and Result values that stand for Python's `None` and for raised exceptions.
- `Paths`: the `"none"` sentinel, the image directory (the video path arrives whole from the video service), `os.path.join`, and absolute paths (the values of `os.path.abspath`).
- `Events`: the canonical event records (`form_submission`, `satellite_image`, any other type) and JSON values.
- `Base64`: the RFC 4648 section 4 encoding done by `base64.b64encode`, and the lenient decoding that `base64.b64decode` does by default. That decoder refuses a non-ASCII text. It skips characters outside the alphabet. It stops at the `=` that completes a quantum. A quantum left unfinished at the end is an error. Both functions are proved inverse: `Decode(Encode(b)) == Some(b)`.
- `DataUrl`: the `"base64,"` marker test and `split("base64,")[1]`. This marker is the `;base64,` of section 3 of RFC 2397.
- `VideoJob`: `generate_video` as the state machine SUBMITTING → POLLING → SUCCEEDED / FAILED / TIMED_OUT. The loop is a method, proved equal to a recursive specification; lemmas state the bound and each exit.
- `Server`: the `ConnectionManager` class, whose `activeConnections` field is a `seq` updated in place, and the `/submit` and `/upload-satellite` endpoints.
- `Bridge`: `process_data` as a method that reassigns `saved_image_path` and updates `result_data` step by step, proved against the specification function `Dispatched`; the routing in `listen`; and the receive loop over a finite run of messages.

Everything outside the process is an injected answer:

- the AI service is a function from the request to an optional JSON value;
- the file writes and `abspath` are a `WriteResult`, or an optional absolute path;
- the clock is a timestamp string;
- the video service is one reply for the submit and one reply per poll;
- a failing `send_text` is membership of a set of failing peers.

Outbound traffic is recorded in ghost logs: `ConnectionManager.sends` holds every `send_text` call and whether it went through; `OscClient.sent` holds every OSC message.

Behaviour of the code worth knowing, which the model keeps:

- `broadcast` (server.py) never removes a peer whose send fails, and it iterates over the live `active_connections` list;
- `disconnect` (server.py) of a peer that is not connected raises `ValueError` from `list.remove`;
- `process_data` (bridge.py) sends nothing when the analysis raises or does not give a JSON object;
- an image that fails to decode leaves `saved_image_path` at `"none"`;
- a failed image write leaves the relative joined path, which then counts as an image: the vision request is built and the video job is started from it;
- both endpoints (server.py) acknowledge with `{"status": "ok"}`;
- the vision request embeds `image_data` as received. When that text already carries a data-URL header, the URL carries the header twice (`RequestFor`).

## Model

| member | source | states |
|---|---|---|
| Paths.Join | bridge.py:158 | the joined path lies under the directory, ends in the file name, and is relative when the directory is |
| Paths.NoneIsNotAbsolute | bridge.py:163 | the sentinel `"none"` is never an absolute path |
| Paths.JoinedIsNotNone | bridge.py:158 | a path joined under `received_images` is relative and differs from `"none"` |
| Events.Kind | bridge.py:239-242 | the `type` field is `"form_submission"` exactly for form submissions and `"satellite_image"` exactly for satellite images |
| Base64.Value | bridge.py:156 | a character with a value is ASCII and is the alphabet character of that value |
| Base64.Char | server.py:55 | the alphabet by value: capitals for 0-25, small letters for 26-51, digits for 52-61, `+` for 62 and `/` for 63; never `=` or `,`, always ASCII |
| Base64.ValueOfChar | server.py:55 | each of the 64 alphabet characters decodes to its own value and is neither `=` nor `,` |
| Base64.Encode | server.py:55 | the encoding has 4·⌈n/3⌉ characters, all from the alphabet or `=` |
| Base64.Group | server.py:55 | three bytes become four ASCII alphabet characters, none of them `=` |
| Base64.GroupBits | server.py:55 | the six-bit values of a group's characters, read back in order, give its three bytes |
| Base64.Feed | bridge.py:156 | each data character but the first of a quantum emits one byte, keeps the bytes already emitted, and resets the pad count |
| Base64.Run | bridge.py:156 | the decoding loop only appends to the bytes already decoded |
| Base64.Decode | bridge.py:156 | `b64decode` succeeds only on ASCII text |
| Base64.RunGroup | server.py:55 | the four characters of a full group decode to its three bytes |
| Base64.RunEncoded | server.py:55 | decoding an encoding appends exactly the encoded bytes |
| Base64.EncodedIsAscii | server.py:55 | an encoding is ASCII and contains no `,` |
| Base64.DecodeEncode | server.py:55 | round trip: `b64decode(b64encode(b)) == b` for every byte string |
| Base64.PaddingOnlyAtEnd | server.py:55 | `=` appears in an encoding only in its last two places |
| Base64.UnfinishedQuantum | bridge.py:156 | a lone data character, a quantum left unfinished, makes `b64decode` fail |
| DataUrl.Find | bridge.py:153 | the result is the first occurrence of `"base64,"` at or after the start, or none exists |
| DataUrl.First | bridge.py:154 | the first occurrence of the marker, with none before it |
| DataUrl.SecondField | bridge.py:154 | `split("base64,")[1]` is the segment right after the first occurrence, up to the next occurrence or the end, and holds no occurrence itself |
| DataUrl.StripHeader | bridge.py:152-154 | without the marker the text is unchanged; with it, the result is the segment right after the first occurrence, up to the next occurrence or the end; the result never contains the marker |
| DataUrl.OccurrenceEndsInComma | bridge.py:153 | every occurrence of the marker ends in `,` |
| DataUrl.StripPrefixed | bridge.py:152-154 | a header whose prefix has no marker, followed by a payload without `,`, strips to exactly the payload |
| DataUrl.StripBare | bridge.py:152-154 | a payload without `,` passes through unchanged |
| VideoJob.Polling | bridge.py:97-123 | from attempt i, at least i and at most 30 polls are made, and a timeout means exactly 30 |
| VideoJob.Job | bridge.py:89-126 | the whole job never makes more than 30 polls |
| VideoJob.ResultPath | bridge.py:119-126 | the returned string is `"none"` exactly when the job did not succeed, and otherwise is absolute |
| VideoJob.GenerateVideo | bridge.py:69-130 | the `for`-loop returns the path and the poll count of the state machine `Job` |
| VideoJob.SkipPending | bridge.py:107-109 | a run of 202 replies only moves polling forward |
| VideoJob.SubmitRejected | bridge.py:89-91 | a submit reply other than 200, or a raised submit, returns `"none"` after zero polls |
| VideoJob.SucceedsAfterPending | bridge.py:97-119 | k < 30 replies of 202 and then a 200 return the saved path after exactly k+1 polls |
| VideoJob.FailsAtUnexpected | bridge.py:121-123 | the first reply that is neither 202 nor 200 ends the job as failed, after that poll and no further one |
| VideoJob.TimesOut | bridge.py:125-126 | thirty 202 replies time out with `"none"` after 30 polls |
| VideoJob.SucceedsOnlyThus | bridge.py:97-119 | polling succeeds if and only if the video is saved and some poll within the budget answers 200 after nothing but 202s |
| Server.Attempts | server.py:28-33 | a broadcast makes one send per connection, in list order, each with the same message; it is delivered unless that peer fails |
| Server.IndexOf | server.py:26 | the position is the first occurrence of the peer |
| Server.IndexOfAt | server.py:26 | a position holding the peer with none before it is where `list.index` finds it |
| Server.RemoveFirst | server.py:26 | `list.remove` drops the first occurrence and keeps the rest in order |
| Server.RemoveFirstCount | server.py:26 | exactly one copy leaves the list |
| Server.ConnectThenDisconnect | server.py:21-26 | connecting a peer that was not connected and then disconnecting it restores the list |
| Server.ReconnectReorders | server.py:21-26 | for any list already holding the peer, a second connect and then a disconnect drop the peer's first entry and keep the new one at the end |
| Server.ConnectionManager.constructor | server.py:18-19 | the registry starts empty |
| Server.ConnectionManager.Connect | server.py:21-23 | the peer is appended at the end; earlier entries are unchanged |
| Server.ConnectionManager.Disconnect | server.py:25-26 | raises exactly when the peer is absent, leaving the list unchanged; otherwise removes its first occurrence |
| Server.ConnectionManager.Broadcast | server.py:28-33 | every connection gets one attempt in list order; failures are swallowed; the list is unchanged |
| Server.SubmitEvent | server.py:67-114 | missing nickname is refused; otherwise a `form_submission` record with every flat field under its section key; omitted fields take the defaults `""`, 2, 2, 2, 1, 1, 2; `has_image` holds iff `image_b64` is non-empty |
| Server.OnlyNickname | server.py:69-85 | a form with only a nickname gets every default |
| Server.Submit | server.py:67-118 | exactly one broadcast of the record followed by `"ok"`; a missing nickname sends nothing |
| Server.SatelliteEvent | server.py:52-62 | a `satellite_image` record with the given session id, whose `image_data` is exactly the `b64encode` text of the uploaded bytes and decodes back to them |
| Server.UploadSatellite | server.py:52-64 | with both fields present, exactly one broadcast of the satellite record followed by `"ok"`; otherwise nothing is sent |
| Bridge.SavedImagePath | bridge.py:148-167 | stays `"none"` unless `has_image` and `image_data` are truthy and decoding succeeds; is absolute exactly after a successful write (the written path); is the relative joined path when the write fails |
| Bridge.ImageFileName | bridge.py:157 | the name is `karma_`, the stamp, then `.jpg`, and holds no `/` when the stamp holds none |
| Bridge.DistinctStampsDistinctFiles | bridge.py:157 | different stamps give different file names, so only submissions with the same stamp (the same second) share a file |
| Bridge.DecodedImage | bridge.py:152-156 | text without the marker is decoded as it is; decoding succeeds only on an ASCII remainder that holds no marker |
| Bridge.RequestFor | bridge.py:181-191 | the vision form of the request is built exactly when the image path is not `"none"`; its URL is the JPEG data-URL prefix plus `image_data` as received |
| Bridge.VideoPathFor | bridge.py:205-210 | `"none"` without an image path; otherwise the result of `generate_video` |
| Bridge.Sends | bridge.py:213-214 | a dispatch puts at most one message on `/karmic_data`, and only when there is a record |
| Bridge.OscClient.constructor | bridge.py:64 | the channel starts with nothing sent |
| Bridge.OscClient.SendMessage | bridge.py:214 | appends one message with the given address and payload |
| Bridge.ProcessData | bridge.py:136-221 | the step-by-step method sends exactly what `Dispatched` gives, nothing or one record; the video job runs, with its submit and its polls, exactly when the analysis gave an object and an image path was kept, and then only for a decoded image; the polls it reports are the job's, at most 30, and none when it did not run |
| Bridge.Dispatched | bridge.py:200-214 | a record is sent iff the analysis gives a JSON object; the record is that object with `original_image_path` and `video_path` set and all other fields kept |
| Bridge.VideoNeedsImage | bridge.py:205-210 | a video path other than `"none"` is only sent for a submission whose image decoded |
| Bridge.RouteOf | bridge.py:239-243 | a message is processed iff it is a `form_submission` |
| Bridge.HandleSends | bridge.py:236-243 | handling one message sends at most one record, and none for a non-form message |
| Bridge.HandleMessage | bridge.py:236-243 | sends exactly what the routing and `process_data` give |
| Bridge.Listen | bridge.py:235-243 | over a run of received messages, sends the concatenation of each message's sends, in order |
| Bridge.OneSendPerAnalysedForm | bridge.py:200-221 | one dispatch per form submission whose analysis gave an object, hence no more dispatches than form submissions |
| Bridge.ImageRoundTrip | bridge.py:152-156 | Base64 text, bare or behind a header without a second marker, decodes to the encoded bytes |
| Bridge.SubmittedWithoutImage | bridge.py:148-149 | a form posted without `image_b64` yields no image path, the text-only request, and `"none"` for both paths in the record |
| Bridge.JpegHeaderHasNoMarker | bridge.py:190 | the header `data:image/jpeg;` contains no `"base64,"` of its own |
| Bridge.SatelliteImageRoundTrip | server.py:55 | the Base64 text of an uploaded satellite image, submitted back behind a JPEG data-URL header, is decoded by the bridge to the uploaded bytes; after a successful write the image path is absolute |

## Left out

- Network, processes and timing: the OpenAI chat call, the Stability HTTP requests, the OSC UDP socket and the websocket transport are replaced by their answers. `time.sleep(2)` between polls and the 3-second reconnect delay are not modelled.
- The reconnect loop of `listen` (`while True` around `websockets.connect`) is not modelled: it is liveness, not sequential behaviour. `Bridge.Listen` models the inner receive loop over a finite run of messages, one connection's worth.
- `json.loads` of a received message is not modelled: messages are `Events.Event` values. A message that fails to parse drops the connection, which is reconnect behaviour.
- JSON serialisation (`json.dumps`, `ensure_ascii=False`) and the key order of the sent record are not modelled: records are maps.
- The prompt text, the system prompt, the meaning of the analysis fields, the model name and the generation parameters (`seed`, `cfg_scale` 1.8, `motion_bucket_id`) are not modelled. The request carries the submission the prompt is formatted from.
- VideoJob.GenerateVideo: the generation id read from the submit reply and the result URL built from it are not modelled; every poll reply is given. A submit reply of 200 whose body is not JSON raises, which is the `Raised` submit reply.
- Server.ConnectionManager.Connect: a failing `websocket.accept()` is not modelled.
- Server.ConnectionManager.Broadcast: does not model other coroutines changing the list while the loop awaits a send (server.py:31). A `connect` meanwhile appends a peer that the loop over the live list then also sends to; a `disconnect` meanwhile shifts the list so that the loop skips the peer after the removed one.
- Server.SubmitEvent: `Some(v)` stands for a non-empty submitted value. FastAPI treats an empty form value as missing, so `nickname=""` is a 422, which is the `None` case here.
- Server.UploadSatellite: likewise `Some(v)` for `session_id` stands for a non-empty value; an empty `session_id` is a 422, the `None` case here.
- FastAPI routing, the static mount, the templates, and the websocket endpoint's receive loop are not modelled. Form parsing is reduced to "field present or absent", so a slider value that is not an integer (another 422) is not modelled.
- Bridge.ProcessData: a failing `osc_client.send_message` counts as a send in the log, though the code only logs the exception. The diagnostic prints are not modelled. The configuration read of `secret.STABILITY_KEY` and the print at bridge.py:70-71 come before `generate_video`'s `try`; a failure there is caught by `process_data`'s `except` at line 220 and nothing is sent, whereas `VideoPathFor` always yields a string.
- Files and clock: the written file contents are not modelled as a file system. `Bridge.DecodedImage` gives the bytes line 161 writes. The video file's name and timestamp are inside the `videoFile` answer.
- Base64.Decode: models only `str` input, which is all the bridge passes. The `altchars` and `validate` options are not used by the code.
- Paths: the model assumes POSIX paths. `IsAbsolute` means "starts with `/`" and `Join` inserts `/`; on Windows `os.path.join` uses `\` and `abspath` gives a drive path such as `C:\...`, which the model does not represent.
