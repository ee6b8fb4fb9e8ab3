/** The bridge: the image intake and the analysis, video and dispatch steps of
    process_data, and the routing of received messages in listen. The
    analysis service, the file system, the clock and the video service are
    given as their answers (Services); the OSC client keeps a log of what it
    was asked to send. */
module Bridge {
  import opened Wrappers
  import opened Events
  import opened Paths
  import Base64
  import DataUrl
  import VideoJob
  import Server

  /** The OSC address of the dispatch (line 214). */
  const OSC_ADDRESS: string := "/karmic_data"

  const ORIGINAL_IMAGE_PATH: string := "original_image_path"
  const VIDEO_PATH: string := "video_path"

  /** What the vision request puts in front of the image text (line 190). */
  const VISION_URL_PREFIX: string := "data:image/jpeg;base64,"

  /** `karma_<timestamp>.jpg`: a JPEG name that holds the stamp and, for a
      stamp without "/", no separator, so joining it adds one component. */
  function ImageFileName(stamp: string): (f: string)
    ensures |f| == |stamp| + 10
    ensures f[..6] == "karma_" && f[6..6 + |stamp|] == stamp && f[|f| - 4..] == ".jpg"
    ensures (forall i :: 0 <= i < |stamp| ==> stamp[i] != '/') ==> forall i :: 0 <= i < |f| ==> f[i] != '/'
  {
    var f := "karma_" + stamp + ".jpg";
    assert f[|f| - 4..] == ".jpg";
    assert forall i :: 6 <= i < 6 + |stamp| ==> f[i] == stamp[i - 6];
    f
  }

  /** Images stamped with different times get different file names, so only
      submissions with the same stamp (the same second) share a file. */
  lemma DistinctStampsDistinctFiles(a: string, b: string)
    requires a != b
    ensures ImageFileName(a) != ImageFileName(b)
  {
    if |a| == |b| {
      assert ImageFileName(a)[6..6 + |a|] == a;
      assert ImageFileName(b)[6..6 + |b|] == b;
    }
  }

  /** The user message of the chat request: the prompt formatted from the
      submission, and for the vision model the image as a data URL. */
  datatype AnalysisRequest = AnalysisRequest(form: Submission, imageUrl: Option<string>)

  /** The answers of everything outside the bridge for one process_data call. */
  datatype Services = Services(
    imageStamp: string,                          // datetime.now() at line 157
    imageWrite: WriteResult,                     // the write and abspath of lines 160-163
    analyze: AnalysisRequest -> Option<Json>,    // the chat call and json.loads; None where they raise
    videoSubmit: VideoJob.HttpReply,             // the POST of line 78
    videoPolls: VideoJob.PollReplies,            // the GETs of line 99
    videoFile: Option<AbsPath>)                  // the saved video, None where saving raises

  /** Lines 152-156: the header is stripped, then the text is decoded;
      None where b64decode raises. A text without the marker is decoded as
      it is, and a decoded text was ASCII and held no marker. */
  function DecodedImage(form: Submission): (r: Option<seq<Base64.byte>>)
    ensures !DataUrl.Contains(form.imageData) ==> r == Base64.Decode(form.imageData)
    ensures r.Some? ==> Base64.IsAscii(DataUrl.StripHeader(form.imageData))
    ensures r.Some? ==> !DataUrl.Contains(DataUrl.StripHeader(form.imageData))
  {
    Base64.Decode(DataUrl.StripHeader(form.imageData))
  }

  /** The value saved_image_path has after lines 148-167. */
  function SavedImagePath(form: Submission, stamp: string, write: WriteResult): (p: string)
    ensures !(form.hasImage && form.imageData != []) ==> p == NONE
    ensures DecodedImage(form).None? ==> p == NONE
    ensures IsAbsolute(p) <==> form.hasImage && form.imageData != [] && DecodedImage(form).Some? && write.Written?
    ensures IsAbsolute(p) ==> p == write.abs
    ensures form.hasImage && form.imageData != [] && DecodedImage(form).Some? && write.WriteFailed?
      ==> p == Join(IMAGE_DIR, ImageFileName(stamp))
    ensures p == NONE <==> !(form.hasImage && form.imageData != [] && DecodedImage(form).Some?)
  {
    NoneIsNotAbsolute();
    JoinedIsNotNone(ImageFileName(stamp));
    if form.hasImage && form.imageData != [] && DecodedImage(form).Some? then
      if write.Written? then write.abs else Join(IMAGE_DIR, ImageFileName(stamp))
    else NONE
  }

  /** Lines 181-191: the vision form of the request exactly when an image
      path was kept; its URL carries image_data as received. */
  function RequestFor(form: Submission, savedImagePath: string): (req: AnalysisRequest)
    ensures req.form == form
    ensures req.imageUrl.Some? <==> savedImagePath != NONE
    ensures req.imageUrl.Some? ==> req.imageUrl.value == VISION_URL_PREFIX + form.imageData
  {
    AnalysisRequest(form, if savedImagePath != NONE then Some(VISION_URL_PREFIX + form.imageData) else None)
  }

  /** Lines 206-208: the video is generated only from a kept image path. */
  function VideoPathFor(savedImagePath: string, services: Services): (v: string)
    ensures savedImagePath == NONE ==> v == NONE
    ensures savedImagePath != NONE ==>
      v == VideoJob.ResultPath(VideoJob.Job(services.videoSubmit, services.videoPolls, services.videoFile).state)
  {
    if savedImagePath != NONE then
      VideoJob.ResultPath(VideoJob.Job(services.videoSubmit, services.videoPolls, services.videoFile).state)
    else NONE
  }

  /** The record process_data sends, or None when the analysis raised or did
      not give a JSON object (the assignment of line 203 raises then). A
      record is the analysis object with the two paths set and all its other
      fields as the service gave them. */
  function Dispatched(form: Submission, services: Services): (d: Option<map<string, Json>>)
    ensures
      var saved := SavedImagePath(form, services.imageStamp, services.imageWrite);
      var response := services.analyze(RequestFor(form, saved));
      && (d.Some? <==> response.Some? && response.value.JObj?)
      && (d.Some? ==>
            var r := d.value;
            var fields := response.value.fields;
            && r.Keys == fields.Keys + {ORIGINAL_IMAGE_PATH, VIDEO_PATH}
            && r[ORIGINAL_IMAGE_PATH] == JStr(saved)
            && r[VIDEO_PATH] == JStr(VideoPathFor(saved, services))
            && forall k :: k in fields && k != ORIGINAL_IMAGE_PATH && k != VIDEO_PATH ==> r[k] == fields[k])
  {
    var saved := SavedImagePath(form, services.imageStamp, services.imageWrite);
    match services.analyze(RequestFor(form, saved))
    case Some(JObj(fields)) =>
      Some(fields[ORIGINAL_IMAGE_PATH := JStr(saved)][VIDEO_PATH := JStr(VideoPathFor(saved, services))])
    case _ => None
  }

  /** A message on the OSC channel. */
  datatype OscMessage = OscMessage(address: string, payload: map<string, Json>)

  /** The messages a dispatch outcome puts on the channel: none or one. */
  function Sends(record: Option<map<string, Json>>): (m: seq<OscMessage>)
    ensures |m| <= 1
    ensures |m| == 1 <==> record.Some?
    ensures record.Some? ==> m == [OscMessage(OSC_ADDRESS, record.value)]
  {
    if record.Some? then [OscMessage(OSC_ADDRESS, record.value)] else []
  }

  /** The UDP client to the visual engine; `sent` is every message it was
      asked to send. */
  class OscClient {
    ghost var sent: seq<OscMessage>

    constructor ()
      ensures sent == []
    {
      sent := [];
    }

    method SendMessage(address: string, payload: map<string, Json>)
      modifies this
      ensures sent == old(sent) + [OscMessage(address, payload)]
    {
      sent := sent + [OscMessage(address, payload)];
    }
  }

  /** process_data(data), lines 136-221, for a "form_submission". The video
      job runs (its submit and its polls) exactly when the analysis gave an
      object and an image path was kept; `polls` is how many polls it made. */
  method ProcessData(osc: OscClient, form: Submission, services: Services) returns (jobRan: bool, polls: nat)
    modifies osc
    ensures osc.sent == old(osc.sent) + Sends(Dispatched(form, services))
    ensures jobRan <==> Dispatched(form, services).Some? && SavedImagePath(form, services.imageStamp, services.imageWrite) != NONE
    ensures jobRan ==> form.hasImage && form.imageData != [] && DecodedImage(form).Some?
    ensures polls == (if jobRan then VideoJob.Job(services.videoSubmit, services.videoPolls, services.videoFile).polls else 0)
    ensures polls <= VideoJob.MAX_POLLS
  {
    jobRan, polls := false, 0;
    // 1. the image
    var savedImagePath := NONE;
    if form.hasImage && form.imageData != [] {
      var b64 := DataUrl.StripHeader(form.imageData);
      var imageData := Base64.Decode(b64);
      if imageData.Some? {
        savedImagePath := Join(IMAGE_DIR, ImageFileName(services.imageStamp));
        if services.imageWrite.Written? {
          savedImagePath := services.imageWrite.abs;
        }
      }
    }
    assert savedImagePath == SavedImagePath(form, services.imageStamp, services.imageWrite);

    // 2. the analysis request, with the image when one was kept
    var request := AnalysisRequest(form, None);
    if savedImagePath != NONE {
      request := request.(imageUrl := Some(VISION_URL_PREFIX + form.imageData));
    }
    var response := services.analyze(request);
    if response.Some? && response.value.JObj? {
      var resultData := response.value.fields;
      resultData := resultData[ORIGINAL_IMAGE_PATH := JStr(savedImagePath)];
      var generatedVideoPath := NONE;
      if savedImagePath != NONE {
        generatedVideoPath, polls := VideoJob.GenerateVideo(services.videoSubmit, services.videoPolls, services.videoFile);
        jobRan := true;
      }
      resultData := resultData[VIDEO_PATH := JStr(generatedVideoPath)];
      // 3. the dispatch
      osc.SendMessage(OSC_ADDRESS, resultData);
    }
  }

  /** What listen does with a received message. */
  datatype Route = Skip | Process

  /** Lines 239-243: satellite images are skipped, form submissions are
      processed, and any other type is passed over. */
  function RouteOf(e: Event): (r: Route)
    ensures r == Process <==> e.FormSubmission?
  {
    if Kind(e) == Some(SATELLITE_IMAGE) then Skip
    else if Kind(e) == Some(FORM_SUBMISSION) then Process
    else Skip
  }

  /** The messages handling `e` sends. */
  function HandleSends(e: Event, services: Services): (m: seq<OscMessage>)
    ensures |m| <= 1
    ensures !e.FormSubmission? ==> m == []
  {
    if RouteOf(e) == Process then Sends(Dispatched(e.form, services)) else []
  }

  /** The body of listen's receive loop for one message. */
  method HandleMessage(osc: OscClient, e: Event, services: Services)
    modifies osc
    ensures osc.sent == old(osc.sent) + HandleSends(e, services)
  {
    if Kind(e) == Some(SATELLITE_IMAGE) {
      return;
    }
    if Kind(e) == Some(FORM_SUBMISSION) {
      var _, _ := ProcessData(osc, e.form, services);
    }
  }

  /** The messages sent for a run of received messages, in order. */
  function SessionSends(events: seq<Event>, services: seq<Services>): seq<OscMessage>
    requires |events| == |services|
    decreases |events|
  {
    if events == [] then []
    else
      var n := |events| - 1;
      SessionSends(events[..n], services[..n]) + HandleSends(events[n], services[n])
  }

  /** listen's inner loop over the messages received on one connection. */
  method Listen(osc: OscClient, events: seq<Event>, services: seq<Services>)
    requires |events| == |services|
    modifies osc
    ensures osc.sent == old(osc.sent) + SessionSends(events, services)
  {
    for i := 0 to |events|
      invariant osc.sent == old(osc.sent) + SessionSends(events[..i], services[..i])
    {
      HandleMessage(osc, events[i], services[i]);
      assert events[..i + 1][..i] == events[..i];
      assert services[..i + 1][..i] == services[..i];
    }
    assert events[..|events|] == events;
    assert services[..|services|] == services;
  }

  /** A message was a form submission whose analysis gave a JSON object. */
  predicate Analysed(e: Event, services: Services) {
    e.FormSubmission? && Dispatched(e.form, services).Some?
  }

  function CountAnalysed(events: seq<Event>, services: seq<Services>): nat
    requires |events| == |services|
    decreases |events|
  {
    if events == [] then 0
    else
      var n := |events| - 1;
      CountAnalysed(events[..n], services[..n]) + (if Analysed(events[n], services[n]) then 1 else 0)
  }

  function CountForms(events: seq<Event>): nat
    decreases |events|
  {
    if events == [] then 0
    else
      var n := |events| - 1;
      CountForms(events[..n]) + (if events[n].FormSubmission? then 1 else 0)
  }

  /** One dispatch per analysed form submission, and no more dispatches
      than form submissions. */
  lemma {:induction false} OneSendPerAnalysedForm(events: seq<Event>, services: seq<Services>)
    requires |events| == |services|
    ensures |SessionSends(events, services)| == CountAnalysed(events, services)
    ensures CountAnalysed(events, services) <= CountForms(events)
    decreases |events|
  {
    if events != [] {
      OneSendPerAnalysedForm(events[..|events| - 1], services[..|services| - 1]);
    }
  }

  /** A video path other than "none" is only ever sent for a submission
      that carried an image which decoded. */
  lemma VideoNeedsImage(form: Submission, services: Services)
    requires Dispatched(form, services).Some?
    requires Dispatched(form, services).value[VIDEO_PATH] != JStr(NONE)
    ensures form.hasImage && form.imageData != [] && DecodedImage(form).Some?
    ensures Dispatched(form, services).value[ORIGINAL_IMAGE_PATH] != JStr(NONE)
  {
  }

  /** An image sent as Base64 text, bare or behind a data-URL header without
      a second "base64,", decodes to the bytes that were encoded. */
  lemma ImageRoundTrip(form: Submission, prefix: string, bytes: seq<Base64.byte>)
    requires !DataUrl.Contains(prefix)
    requires form.imageData == Base64.Encode(bytes) || form.imageData == prefix + DataUrl.MARKER + Base64.Encode(bytes)
    ensures DecodedImage(form) == Some(bytes)
  {
    Base64.EncodedIsAscii(bytes);
    Base64.DecodeEncode(bytes);
    if form.imageData == Base64.Encode(bytes) {
      DataUrl.StripBare(Base64.Encode(bytes));
    } else {
      DataUrl.StripPrefixed(prefix, Base64.Encode(bytes));
    }
  }

  /** A form posted without image_b64 reaches the bridge with no image: no
      file, the text-only request, and "none" for both paths in the record. */
  lemma SubmittedWithoutImage(form: Server.SubmitForm, services: Services)
    requires Server.SubmitEvent(form).Ok?
    requires form.imageB64.GetOr("") == ""
    ensures
      var s := Server.SubmitEvent(form).value.form;
      && SavedImagePath(s, services.imageStamp, services.imageWrite) == NONE
      && RequestFor(s, NONE).imageUrl.None?
      && (Dispatched(s, services).Some? ==>
            Dispatched(s, services).value[ORIGINAL_IMAGE_PATH] == JStr(NONE)
            && Dispatched(s, services).value[VIDEO_PATH] == JStr(NONE))
  {
  }

  /** The data-URL header the browser puts in front of Base64 text. */
  lemma JpegHeaderHasNoMarker()
    ensures !DataUrl.Contains("data:image/jpeg;")
  {
    var h := "data:image/jpeg;";
    if DataUrl.Contains(h) {
      var k := DataUrl.First(h);
      DataUrl.OccurrenceEndsInComma(h, k);
      assert false;
    }
  }

  /** The Base64 text of an uploaded satellite image, posted back to /submit
      behind a data-URL header, is decoded by the bridge to the uploaded
      bytes, and with a successful write the image path is absolute. */
  lemma SatelliteImageRoundTrip(sessionId: string, bytes: seq<Base64.byte>, form: Server.SubmitForm, services: Services)
    requires Server.SubmitEvent(form).Ok?
    requires form.imageB64 == Some("data:image/jpeg;" + DataUrl.MARKER + Server.SatelliteEvent(sessionId, bytes).imageData)
    ensures
      var s := Server.SubmitEvent(form).value.form;
      && s.hasImage
      && DecodedImage(s) == Some(bytes)
      && (services.imageWrite.Written? ==>
            SavedImagePath(s, services.imageStamp, services.imageWrite) == services.imageWrite.abs)
  {
    var s := Server.SubmitEvent(form).value.form;
    JpegHeaderHasNoMarker();
    ImageRoundTrip(s, "data:image/jpeg;", bytes);
  }
}
