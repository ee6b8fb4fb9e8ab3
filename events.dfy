/** The canonical event records that travel from the relay to the bridge, and
    the JSON values the analysis service returns. JSON text itself is not
    modelled: records are values. */
module Events {
  import opened Wrappers

  /** A JSON value as json.loads produces it (numbers as reals). */
  datatype Json =
    | JNull
    | JBool(b: bool)
    | JNum(n: real)
    | JStr(s: string)
    | JArr(items: seq<Json>)
    | JObj(fields: map<string, Json>)

  /** 黄土 (Odo): who the participant is. */
  datatype Identity = Identity(nickname: string, specialExistence: string, favoriteSmell: string)

  /** 青春 (Seishun): three sliders. */
  datatype Seishun = Seishun(noiseSilence: int, cityCountry: int, realityFantasy: int)

  /** 朱夏 (Shuka): when the hardest time is, and the dream. */
  datatype Shuka = Shuka(hellTime: int, dream: string)

  /** 白冬 (Hakuto): the setback and what cannot be let go. */
  datatype Hakuto = Hakuto(setback: string, lostRelease: string)

  /** 玄冬 (Gento): where one returns and which way one goes. */
  datatype Gento = Gento(returnElement: int, goNorthSouth: int)

  /** The payload of a "form_submission" event, section by section. */
  datatype Submission = Submission(
    identity: Identity,
    seishun: Seishun,
    shuka: Shuka,
    hakuto: Hakuto,
    gento: Gento,
    imageData: string,
    hasImage: bool)

  const FORM_SUBMISSION: string := "form_submission"
  const SATELLITE_IMAGE: string := "satellite_image"

  /** The "type" field of any other message: absent, or some other string. */
  type OtherKind = k: Option<string> | k != Some(FORM_SUBMISSION) && k != Some(SATELLITE_IMAGE) witness None

  /** A message on the relay, discriminated by its "type" field. */
  datatype Event =
    | FormSubmission(form: Submission)
    | SatelliteImage(sessionId: string, imageData: string)
    | Other(kind: OtherKind)

  /** `data.get("type")` of the message. */
  function Kind(e: Event): (k: Option<string>)
    ensures k == Some(FORM_SUBMISSION) <==> e.FormSubmission?
    ensures k == Some(SATELLITE_IMAGE) <==> e.SatelliteImage?
  {
    match e
    case FormSubmission(_) => Some(FORM_SUBMISSION)
    case SatelliteImage(_, _) => Some(SATELLITE_IMAGE)
    case Other(k) => k
  }
}
