/** The relay server: the registry of connected peers (ConnectionManager)
    and the two one-shot endpoints that turn a submission into one broadcast
    event record. HTTP routing, form parsing and the websocket accept and
    receive loop are not modelled; their results are the inputs here. */
module Server {
  import opened Wrappers
  import opened Events
  import Base64

  /** One send_text call of a broadcast, and whether it went through. */
  datatype Attempt<Peer> = Attempt(peer: Peer, message: Event, delivered: bool)

  /** The sends a broadcast of `message` makes, in list order, when the peers
      in `failing` raise on send_text. */
  function Attempts<Peer(==)>(peers: seq<Peer>, message: Event, failing: set<Peer>): (r: seq<Attempt<Peer>>)
    ensures |r| == |peers|
    ensures forall i :: 0 <= i < |r| ==> r[i] == Attempt(peers[i], message, peers[i] !in failing)
  {
    if peers == [] then []
    else
      var last := peers[|peers| - 1];
      Attempts(peers[..|peers| - 1], message, failing) + [Attempt(last, message, last !in failing)]
  }

  /** Where list.index finds `x`: its first occurrence. */
  function IndexOf<T(==)>(s: seq<T>, x: T): (i: nat)
    requires x in s
    ensures i < |s| && s[i] == x && x !in s[..i]
  {
    if s[0] == x then 0 else 1 + IndexOf(s[1..], x)
  }

  /** list.remove: the first occurrence of `x` goes, the rest keeps its order. */
  function RemoveFirst<T(==)>(s: seq<T>, x: T): (r: seq<T>)
    requires x in s
    ensures r == s[..IndexOf(s, x)] + s[IndexOf(s, x) + 1..]
  {
    if s[0] == x then
      s[1..]
    else
      var t := s[1..];
      var j := IndexOf(t, x);
      assert IndexOf(s, x) == j + 1;
      assert s[..j + 1] == [s[0]] + t[..j];
      assert s[j + 2..] == t[j + 1..];
      [s[0]] + RemoveFirst(t, x)
  }

  /** Exactly one copy of `x` leaves the list. */
  lemma {:induction false} RemoveFirstCount<T>(s: seq<T>, x: T)
    requires x in s
    ensures |RemoveFirst(s, x)| == |s| - 1
    ensures multiset(RemoveFirst(s, x)) == multiset(s) - multiset{x}
    decreases |s|
  {
    assert s == [s[0]] + s[1..];
    if s[0] != x {
      RemoveFirstCount(s[1..], x);
      assert RemoveFirst(s, x) == [s[0]] + RemoveFirst(s[1..], x);
    }
  }

  /** A position holding `x` with no `x` before it is the one IndexOf finds. */
  lemma {:induction false} IndexOfAt<T>(s: seq<T>, x: T, i: nat)
    requires i < |s| && s[i] == x && x !in s[..i]
    ensures IndexOf(s, x) == i
  {
    var j := IndexOf(s, x);
    assert forall k :: 0 <= k < i ==> s[..i][k] == s[k];
    assert forall k :: 0 <= k < j ==> s[..j][k] == s[k];
  }

  /** Disconnecting a peer that has just connected, and was not connected
      before, gives back the list as it was. */
  lemma {:induction false} ConnectThenDisconnect<T>(s: seq<T>, x: T)
    requires x !in s
    ensures RemoveFirst(s + [x], x) == s
  {
    var t := s + [x];
    assert IndexOf(t, x) == |s|;
    assert t[..|s|] == s;
  }

  /** A peer already in the list is removed at its first place, so a second
      connection of the same peer followed by its disconnect drops the first
      entry and keeps the new one at the end. */
  lemma {:induction false} ReconnectReorders<T>(s: seq<T>, x: T)
    requires x in s
    ensures RemoveFirst(s + [x], x) == RemoveFirst(s, x) + [x]
  {
    var i := IndexOf(s, x);
    var t := s + [x];
    assert t[i] == x && t[..i] == s[..i];
    IndexOfAt(t, x, i);
    assert t[i + 1..] == s[i + 1..] + [x];
  }

  /** The websocket registry; `sends` records every send_text call it makes. */
  class ConnectionManager<Peer(==)> {
    var activeConnections: seq<Peer>
    ghost var sends: seq<Attempt<Peer>>

    constructor ()
      ensures activeConnections == [] && sends == []
    {
      activeConnections := [];
      sends := [];
    }

    /** Appends the accepted peer at the end. */
    method Connect(websocket: Peer)
      modifies this`activeConnections
      ensures activeConnections == old(activeConnections) + [websocket]
      ensures activeConnections[..|old(activeConnections)|] == old(activeConnections)
    {
      activeConnections := activeConnections + [websocket];
    }

    /** Removes the first occurrence of the peer; for a peer that is not in
        the list, list.remove raises ValueError and the list stays as it was. */
    method Disconnect(websocket: Peer) returns (raised: bool)
      modifies this`activeConnections
      ensures raised <==> websocket !in old(activeConnections)
      ensures raised ==> activeConnections == old(activeConnections)
      ensures !raised ==> activeConnections == RemoveFirst(old(activeConnections), websocket)
    {
      if websocket !in activeConnections {
        return true;
      }
      activeConnections := RemoveFirst(activeConnections, websocket);
      return false;
    }

    /** Sends to every connection in list order; a send that raises is
        swallowed, the loop goes on and no peer is removed. */
    method Broadcast(message: Event, failing: set<Peer>)
      modifies this`sends
      ensures activeConnections == old(activeConnections)
      ensures sends == old(sends) + Attempts(activeConnections, message, failing)
    {
      for i := 0 to |activeConnections|
        invariant sends == old(sends) + Attempts(activeConnections[..i], message, failing)
      {
        var connection := activeConnections[i];
        var delivered := connection !in failing;
        sends := sends + [Attempt(connection, message, delivered)];
        assert activeConnections[..i + 1][..i] == activeConnections[..i];
      }
      assert activeConnections[..|activeConnections|] == activeConnections;
    }
  }

  /** The acknowledgement both endpoints return: {"status": "ok"}. */
  const STATUS_OK: string := "ok"

  /** FastAPI's 422 for a required form field that is missing. */
  datatype FormError = MissingField(name: string)

  /** The fields of a POST to /submit; None where the field was not sent. */
  datatype SubmitForm = SubmitForm(
    nickname: Option<string>,
    specialExistence: Option<string>,
    favoriteSmell: Option<string>,
    sliderNoiseSilence: Option<int>,
    sliderCityCountry: Option<int>,
    sliderRealityFantasy: Option<int>,
    sliderHellTime: Option<int>,
    textDream: Option<string>,
    textSetback: Option<string>,
    textLostRelease: Option<string>,
    sliderReturnElement: Option<int>,
    sliderGoNorthSouth: Option<int>,
    imageB64: Option<string>)

  const DEFAULT_TEXT: string := ""
  const DEFAULT_NOISE_SILENCE: int := 2
  const DEFAULT_CITY_COUNTRY: int := 2
  const DEFAULT_REALITY_FANTASY: int := 2
  const DEFAULT_HELL_TIME: int := 1
  const DEFAULT_RETURN_ELEMENT: int := 1
  const DEFAULT_GO_NORTH_SOUTH: int := 2

  /** The record /submit broadcasts: each flat field under its section key,
      omitted fields at their defaults, and has_image = bool(image_b64). */
  function SubmitEvent(form: SubmitForm): (r: Result<Event, FormError>)
    ensures r.Err? <==> form.nickname.None?
    ensures r.Err? ==> r.error == MissingField("nickname")
    ensures r.Ok? ==> r.value.FormSubmission? && Kind(r.value) == Some(FORM_SUBMISSION)
    ensures r.Ok? ==>
      var s := r.value.form;
      && s.identity == Identity(form.nickname.value, form.specialExistence.GetOr(DEFAULT_TEXT), form.favoriteSmell.GetOr(DEFAULT_TEXT))
      && s.seishun.noiseSilence == form.sliderNoiseSilence.GetOr(DEFAULT_NOISE_SILENCE)
      && s.seishun.cityCountry == form.sliderCityCountry.GetOr(DEFAULT_CITY_COUNTRY)
      && s.seishun.realityFantasy == form.sliderRealityFantasy.GetOr(DEFAULT_REALITY_FANTASY)
      && s.shuka.hellTime == form.sliderHellTime.GetOr(DEFAULT_HELL_TIME)
      && s.shuka.dream == form.textDream.GetOr(DEFAULT_TEXT)
      && s.hakuto.setback == form.textSetback.GetOr(DEFAULT_TEXT)
      && s.hakuto.lostRelease == form.textLostRelease.GetOr(DEFAULT_TEXT)
      && s.gento.returnElement == form.sliderReturnElement.GetOr(DEFAULT_RETURN_ELEMENT)
      && s.gento.goNorthSouth == form.sliderGoNorthSouth.GetOr(DEFAULT_GO_NORTH_SOUTH)
      && s.imageData == form.imageB64.GetOr(DEFAULT_TEXT)
      && (s.hasImage <==> s.imageData != [])
  {
    if form.nickname.None? then Err(MissingField("nickname"))
    else
      var imageB64 := form.imageB64.GetOr(DEFAULT_TEXT);
      Ok(FormSubmission(Submission(
        Identity(form.nickname.value, form.specialExistence.GetOr(DEFAULT_TEXT), form.favoriteSmell.GetOr(DEFAULT_TEXT)),
        Seishun(
          form.sliderNoiseSilence.GetOr(DEFAULT_NOISE_SILENCE),
          form.sliderCityCountry.GetOr(DEFAULT_CITY_COUNTRY),
          form.sliderRealityFantasy.GetOr(DEFAULT_REALITY_FANTASY)),
        Shuka(form.sliderHellTime.GetOr(DEFAULT_HELL_TIME), form.textDream.GetOr(DEFAULT_TEXT)),
        Hakuto(form.textSetback.GetOr(DEFAULT_TEXT), form.textLostRelease.GetOr(DEFAULT_TEXT)),
        Gento(
          form.sliderReturnElement.GetOr(DEFAULT_RETURN_ELEMENT),
          form.sliderGoNorthSouth.GetOr(DEFAULT_GO_NORTH_SOUTH)),
        imageB64,
        |imageB64| > 0)))
  }

  /** A form that sends only the nickname gets every default. */
  lemma OnlyNickname(nickname: string)
    ensures SubmitEvent(SubmitForm(Some(nickname), None, None, None, None, None, None, None, None, None, None, None, None))
      == Ok(FormSubmission(Submission(
           Identity(nickname, "", ""), Seishun(2, 2, 2), Shuka(1, ""), Hakuto("", ""), Gento(1, 2), "", false)))
  {
  }

  /** POST /submit: one broadcast of the record, then {"status": "ok"}; a
      missing nickname is refused before anything is sent. */
  method Submit<Peer(==)>(manager: ConnectionManager<Peer>, form: SubmitForm, failing: set<Peer>)
    returns (response: Result<string, FormError>)
    modifies manager`sends
    ensures response.Err? <==> form.nickname.None?
    ensures response.Ok? ==> response.value == STATUS_OK
    ensures manager.activeConnections == old(manager.activeConnections)
    ensures manager.sends == old(manager.sends) +
      (if form.nickname.Some? then Attempts(manager.activeConnections, SubmitEvent(form).value, failing) else [])
  {
    var data := SubmitEvent(form);
    if data.Err? {
      return Err(data.error);
    }
    manager.Broadcast(data.value, failing);
    return Ok(STATUS_OK);
  }

  /** The record /upload-satellite broadcasts: the session id and the
      Base64 text of the uploaded bytes, which decodes back to them. */
  function SatelliteEvent(sessionId: string, contents: seq<Base64.byte>): (e: Event)
    ensures e.SatelliteImage? && Kind(e) == Some(SATELLITE_IMAGE)
    ensures e.sessionId == sessionId
    ensures e.imageData == Base64.Encode(contents)
    ensures Base64.Decode(e.imageData) == Some(contents)
  {
    Base64.DecodeEncode(contents);
    SatelliteImage(sessionId, Base64.Encode(contents))
  }

  /** POST /upload-satellite: session_id and image are both required. */
  method UploadSatellite<Peer(==)>(manager: ConnectionManager<Peer>, sessionId: Option<string>,
                                    image: Option<seq<Base64.byte>>, failing: set<Peer>)
    returns (response: Result<string, FormError>)
    modifies manager`sends
    ensures response.Err? <==> sessionId.None? || image.None?
    ensures response.Ok? ==> response.value == STATUS_OK
    ensures manager.activeConnections == old(manager.activeConnections)
    ensures manager.sends == old(manager.sends) +
      (if response.Ok? then Attempts(manager.activeConnections, SatelliteEvent(sessionId.value, image.value), failing) else [])
  {
    if sessionId.None? {
      return Err(MissingField("session_id"));
    }
    if image.None? {
      return Err(MissingField("image"));
    }
    var msg := SatelliteEvent(sessionId.value, image.value);
    manager.Broadcast(msg, failing);
    return Ok(STATUS_OK);
  }
}
