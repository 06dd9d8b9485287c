/** What the provider's two endpoints hand back, as the overlay's core sees
    it, and how `get_current_playback` turns one HTTP reply into a value or
    an exception. The HTTP requests themselves are not modelled: their
    outcomes are values of the datatypes below. */
module SpotifyApi {
  import opened Wrappers

  // ---------------------------------------------------------------------
  // Token endpoint (exchange_code_for_token, refresh_access_token)

  /** The `expires_in` entry of a token response: missing, an integer
      number of seconds, or a value neither `timedelta(seconds=...)` nor
      `int(...)` accepts. */
  datatype ExpiresIn = Absent | Seconds(n: int) | NotANumber

  /** The parsed JSON body of a 2xx token response. `None` for a missing key. */
  datatype TokenResponse = TokenResponse(
    accessToken: Option<string>,
    refreshToken: Option<string>,
    expiresIn: ExpiresIn)

  // ---------------------------------------------------------------------
  // Playback endpoint (get_current_playback)

  /** The parts of the currently-playing JSON object the overlay reads.
      `None` is a key that is absent. */
  datatype Artist = Artist(name: Option<string>)
  datatype Image = Image(url: Option<string>)
  datatype Album = Album(name: Option<string>, images: Option<seq<Image>>)
  datatype Item = Item(
    name: Option<string>,
    artists: Option<seq<Artist>>,
    album: Option<Album>,
    durationMs: Option<int>)

  /** A playback object; `item` is `None` when the key is absent, `null`
      or an empty object (all of which Python treats as false). */
  datatype Playback = Playback(item: Option<Item>, progressMs: Option<int>)

  /** The body of an HTTP reply: not JSON at all, or a JSON value
      (`null` is `Json(None)`). */
  datatype Body = NotJson | Json(payload: Option<Playback>)

  /** One GET of the currently-playing endpoint: a reply with a status
      code, or no reply (connection error, five-second timeout). */
  datatype HttpReply = Reply(status: int, body: Body) | NoReply

  /** What `get_current_playback` does: returns a value, or raises. */
  datatype Fetch = Returned(data: Option<Playback>) | Raised

  /** `raise_for_status()` raises exactly for the 4xx and 5xx codes. */
  predicate ErrorStatus(status: int) {
    400 <= status < 600
  }

  /** `get_current_playback`: 204 and 429 return `None` (429 after a two
      second pause, which is not modelled); a 4xx/5xx status, a missing
      reply and a body that is not JSON raise; anything else returns the
      parsed body. */
  function GetCurrentPlayback(reply: HttpReply): (r: Fetch)
    ensures reply.Reply? && (reply.status == 204 || reply.status == 429) ==> r == Returned(None)
    ensures r.Raised? <==>
      (reply.NoReply?
       || (reply.status != 204 && reply.status != 429
           && (ErrorStatus(reply.status) || reply.body.NotJson?)))
    ensures r.Returned? && r.data.Some? ==>
      reply.Reply? && !ErrorStatus(reply.status) && reply.body == Json(r.data)
    ensures reply.Reply? && reply.status != 204 && reply.status != 429 && r.Returned? ==>
      reply.body == Json(r.data)
  {
    match reply
    case NoReply => Raised
    case Reply(status, body) =>
      if status == 204 then Returned(None)
      else if status == 429 then Returned(None)
      else if ErrorStatus(status) then Raised
      else match body
        case NotJson => Raised
        case Json(payload) => Returned(payload)
  }

  /** A 2xx reply other than 204 hands its JSON body to the caller as it is. */
  lemma SuccessReturnsPayload(status: int, payload: Option<Playback>)
    requires 200 <= status < 300 && status != 204
    ensures GetCurrentPlayback(Reply(status, Json(payload))) == Returned(payload)
  {
  }
}
