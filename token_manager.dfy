/** The credential record and the background loop that keeps its access
    token fresh (`token_manager_loop`), together with the record built
    after the authorization-code exchange (`complete_auth`).

    Timestamps are whole seconds since the epoch; an ISO-8601 `expires_at`
    string is an integer here. */
module TokenManager {
  import opened Wrappers
  import opened SpotifyApi
  import opened PyStr

  /** An access token is renewed this many seconds before it expires. */
  const RefreshMargin: int := 30
  /** Lifetime assumed when the provider's response gives none. */
  const DefaultExpiresIn: int := 3600

  /** The stored credential record (`tokens_container`, `self.tokens`).
      `None` is a key that is absent or holds `None`. */
  datatype Credentials = Credentials(
    accessToken: Option<string>,
    refreshToken: Option<string>,
    expiresAt: Option<int>)

  /** The renewal rule: a record needs a refresh unless it has an access
      token and an expiry and `now` is more than the margin before it. */
  predicate NeedsRefresh(c: Credentials, now: int) {
    !(Truthy(c.accessToken) && c.expiresAt.Some? && now < c.expiresAt.value - RefreshMargin)
  }

  /** The expiry both the refresh and the code exchange compute from the
      clock read after the response: `clock + expires_in`, with 3600 when
      the response has none; `None` when the value is not a number (the
      computation raises). */
  function ExpiryFrom(clock: int, e: ExpiresIn): (r: Option<int>)
    ensures r.None? <==> e.NotANumber?
    ensures r.Some? ==> r.value - clock == if e.Seconds? then e.n else DefaultExpiresIn
  {
    match e
    case Absent => Some(clock + DefaultExpiresIn)
    case Seconds(n) => Some(clock + n)
    case NotANumber => None
  }

  /** The record after one loop iteration, and whether it was written to
      durable storage (`save_tokens`) in that iteration. */
  datatype Effect = Effect(record: Credentials, saved: bool)

  /** The body of the `try` at main.py:138-145 applied to a response:
      the assignments happen in order and stop at the first that raises. */
  function ApplyResponse(c: Credentials, resp: TokenResponse, clock: int): Effect {
    if resp.accessToken.None? then Effect(c, false)  // resp["access_token"] raises first
    else
      var renewed := c.(accessToken := resp.accessToken,
                        refreshToken := if resp.refreshToken.Some? then resp.refreshToken
                                        else c.refreshToken);
      match ExpiryFrom(clock, resp.expiresIn)
      case None => Effect(renewed, false)               // timedelta raises, nothing saved
      case Some(t) => Effect(renewed.(expiresAt := Some(t)), true)
  }

  /** The outcome of one `refresh_access_token` call: the parsed 2xx
      response together with the clock read after it, or an exception
      (network error, timeout, non-2xx status). */
  datatype RefreshOutcome = Responded(response: TokenResponse, clock: int) | Failed

  /** One iteration of the loop at time `now` with the refresh call's outcome. */
  function StepEffect(c: Credentials, now: int, outcome: RefreshOutcome): Effect {
    if !NeedsRefresh(c, now) then Effect(c, false)
    else match outcome
      case Failed => Effect(c, false)
      case Responded(resp, clock) => ApplyResponse(c, resp, clock)
  }

  /** One loop iteration's inputs: the clock at the check and what the
      refresh call would return if it is made. */
  datatype Tick = Tick(now: int, outcome: RefreshOutcome)

  /** The record, the number of refresh calls and the records saved after
      a run of iterations. */
  datatype Trace = Trace(record: Credentials, attempts: nat, saves: seq<Credentials>)

  function Replay(c: Credentials, ticks: seq<Tick>): Trace
    decreases |ticks|
  {
    if |ticks| == 0 then Trace(c, 0, [])
    else
      var t := Replay(c, ticks[..|ticks| - 1]);
      var last := ticks[|ticks| - 1];
      var e := StepEffect(t.record, last.now, last.outcome);
      Trace(e.record,
            t.attempts + (if NeedsRefresh(t.record, last.now) then 1 else 0),
            t.saves + (if e.saved then [e.record] else []))
  }

  // ---------------------------------------------------------------------
  // Properties of one iteration

  /** A successful refresh replaces the access token, replaces the refresh
      token only when the response carries one, sets the expiry to the
      response clock plus `expires_in` (3600 by default) and saves the
      whole record; an exception, or a response without `access_token`,
      leaves the record as it was and saves nothing. An `expires_in` that
      is not a number leaves the new tokens in the record with the old
      expiry, unsaved. */
  lemma StepOutcome(c: Credentials, now: int, outcome: RefreshOutcome)
    ensures var e := StepEffect(c, now, outcome);
      && (e.saved <==> NeedsRefresh(c, now) && outcome.Responded?
                       && outcome.response.accessToken.Some?
                       && !outcome.response.expiresIn.NotANumber?)
      && (e.saved ==> e.record == Credentials(
            outcome.response.accessToken,
            if outcome.response.refreshToken.Some? then outcome.response.refreshToken
            else c.refreshToken,
            ExpiryFrom(outcome.clock, outcome.response.expiresIn)))
      && (!NeedsRefresh(c, now) || outcome.Failed? || outcome.response.accessToken.None?
          ==> e.record == c)
      && (NeedsRefresh(c, now) && outcome.Responded? && outcome.response.accessToken.Some?
          && outcome.response.expiresIn.NotANumber?
          ==> e.record == c.(accessToken := outcome.response.accessToken,
                             refreshToken := if outcome.response.refreshToken.Some?
                                             then outcome.response.refreshToken
                                             else c.refreshToken))
  {
  }

  /** After a saved refresh whose lifetime exceeds the margin, the record
      does not need a refresh at any time before `clock + expires_in - 30`,
      in particular not at the response's own clock. */
  lemma RefreshedIsFresh(c: Credentials, now: int, resp: TokenResponse, clock: int, later: int)
    requires NeedsRefresh(c, now)
    requires Truthy(resp.accessToken)
    requires resp.expiresIn.Seconds? || resp.expiresIn.Absent?
    requires later < ExpiryFrom(clock, resp.expiresIn).value - RefreshMargin
    ensures !NeedsRefresh(StepEffect(c, now, Responded(resp, clock)).record, later)
  {
  }

  /** A refresh triggered by the clock (not by a missing token) moves the
      expiry strictly forward when the new lifetime exceeds the margin and
      the response arrives no earlier than the check. */
  lemma ExpiryAdvances(c: Credentials, now: int, resp: TokenResponse, clock: int)
    requires Truthy(c.accessToken) && c.expiresAt.Some? && NeedsRefresh(c, now)
    requires clock >= now && resp.accessToken.Some?
    requires resp.expiresIn.Absent? || (resp.expiresIn.Seconds? && resp.expiresIn.n > RefreshMargin)
    ensures var e := StepEffect(c, now, Responded(resp, clock));
      e.record.expiresAt.Some? && e.record.expiresAt.value > c.expiresAt.value
  {
  }

  /** The example of a token that expired a second ago: with any response
      of more than 30 seconds' lifetime (the 3600 default included) read at
      the same `now`, the next
      check in that iteration reports no need to refresh. */
  lemma ExpiredOneSecondAgo(access: string, refresh: string, now: int, resp: TokenResponse)
    requires Truthy(resp.accessToken)
    requires resp.expiresIn.Absent? || (resp.expiresIn.Seconds? && resp.expiresIn.n > RefreshMargin)
    ensures var c := Credentials(Some(access), Some(refresh), Some(now - 1));
      NeedsRefresh(c, now) && !NeedsRefresh(StepEffect(c, now, Responded(resp, now)).record, now)
  {
  }

  // ---------------------------------------------------------------------
  // Properties of a run

  /** Over any run, the stored refresh token is still present if it was
      at the start, and it is either the original or one the provider
      handed out in a refresh that replaced the access token. */
  lemma {:induction false} RefreshTokenRetained(c: Credentials, ticks: seq<Tick>)
    requires c.refreshToken.Some?
    ensures var r := Replay(c, ticks).record.refreshToken;
      r.Some? &&
      (r == c.refreshToken
       || exists i | 0 <= i < |ticks| ::
            ticks[i].outcome.Responded?
            && ticks[i].outcome.response.accessToken.Some?
            && ticks[i].outcome.response.refreshToken == r)
    decreases |ticks|
  {
    if |ticks| > 0 {
      var front := ticks[..|ticks| - 1];
      RefreshTokenRetained(c, front);
      var t := Replay(c, front);
      var r := Replay(c, ticks).record.refreshToken;
      if r != t.record.refreshToken {
        var i := |ticks| - 1;
        assert ticks[i].outcome.Responded? && ticks[i].outcome.response.refreshToken == r;
      } else if r != c.refreshToken {
        var i :| 0 <= i < |front| && front[i].outcome.Responded?
          && front[i].outcome.response.accessToken.Some?
          && front[i].outcome.response.refreshToken == r;
        assert ticks[i] == front[i];
      }
    }
  }

  /** A run in which every refresh call fails changes nothing and saves
      nothing: the last known credentials are kept. */
  lemma {:induction false} FailuresKeepRecord(c: Credentials, ticks: seq<Tick>)
    requires forall i | 0 <= i < |ticks| :: ticks[i].outcome.Failed?
    ensures Replay(c, ticks).record == c && Replay(c, ticks).saves == []
    decreases |ticks|
  {
    if |ticks| > 0 {
      FailuresKeepRecord(c, ticks[..|ticks| - 1]);
    }
  }

  /** Every record written to storage during a run is a complete renewed
      record: it has an access token and an expiry. */
  lemma {:induction false} SavesAreComplete(c: Credentials, ticks: seq<Tick>)
    ensures forall i | 0 <= i < |Replay(c, ticks).saves| ::
      Replay(c, ticks).saves[i].accessToken.Some? && Replay(c, ticks).saves[i].expiresAt.Some?
    ensures |Replay(c, ticks).saves| <= Replay(c, ticks).attempts <= |ticks|
    decreases |ticks|
  {
    if |ticks| > 0 {
      SavesAreComplete(c, ticks[..|ticks| - 1]);
    }
  }

  // ---------------------------------------------------------------------
  // The record built by complete_auth

  datatype AuthError = MissingAccessToken | BadExpiresIn

  /** The record `complete_auth` builds from a code-exchange response read
      at `clock`: the access token is required, the refresh token is taken
      as given (possibly `None`), and the expiry follows the same rule as
      a refresh. */
  function FromCodeExchange(resp: TokenResponse, clock: int): (r: Result<Credentials, AuthError>)
    ensures r.Ok? <==> resp.accessToken.Some? && !resp.expiresIn.NotANumber?
    ensures r.Ok? ==>
      && r.value.accessToken == resp.accessToken
      && r.value.refreshToken == resp.refreshToken
      && r.value.expiresAt == ExpiryFrom(clock, resp.expiresIn)
  {
    if resp.accessToken.None? then Err(MissingAccessToken)
    else match ExpiryFrom(clock, resp.expiresIn)
      case None => Err(BadExpiresIn)
      case Some(t) => Ok(Credentials(resp.accessToken, resp.refreshToken, Some(t)))
  }

  /** A freshly authenticated record is valid until the margin before its
      expiry, exactly like a refreshed one. */
  lemma FreshAuthRecord(resp: TokenResponse, clock: int, later: int)
    requires Truthy(resp.accessToken) && !resp.expiresIn.NotANumber?
    ensures var r := FromCodeExchange(resp, clock);
      r.Ok?
      && (later < ExpiryFrom(clock, resp.expiresIn).value - RefreshMargin
          ==> !NeedsRefresh(r.value, later))
  {
  }

  // ---------------------------------------------------------------------
  // The loop itself, over the mutable record

  /** `tokens_container`: the credential dict the loop updates in place,
      with the sequence of records `save_tokens` has written. */
  class TokenStore {
    var accessToken: Option<string>
    var refreshToken: Option<string>
    var expiresAt: Option<int>
    var saved: seq<Credentials>

    function Record(): Credentials
      reads this
    {
      Credentials(accessToken, refreshToken, expiresAt)
    }

    constructor (c: Credentials)
      ensures Record() == c && saved == []
    {
      accessToken, refreshToken, expiresAt := c.accessToken, c.refreshToken, c.expiresAt;
      saved := [];
    }

    /** main.py:127-135: the flag starts true and is cleared only when a
        token and an expiry are present and `now` is before the margin. */
    method CheckNeedsRefresh(now: int) returns (needs: bool)
      ensures needs <==> !(Truthy(accessToken) && expiresAt.Some?
                           && now < expiresAt.value - RefreshMargin)
    {
      needs := true;
      if accessToken.Some? && accessToken.value != "" && expiresAt.Some? {
        if now < expiresAt.value - RefreshMargin {
          needs := false;
        }
      }
    }

    /** One iteration of the loop. `rt` is the loop's local copy of the
        refresh token; `sent` is the refresh token passed to the refresh
        call, `None` when no call is made. */
    method Step(rt: string, now: int, outcome: RefreshOutcome) returns (sent: Option<string>, rt': string)
      modifies this
      ensures sent == if NeedsRefresh(old(Record()), now) then Some(rt) else None
      ensures var e := StepEffect(old(Record()), now, outcome);
        Record() == e.record && saved == old(saved) + (if e.saved then [e.record] else [])
      ensures rt' == if sent.Some? && outcome.Responded? && outcome.response.accessToken.Some?
                       && outcome.response.refreshToken.Some?
                     then outcome.response.refreshToken.value else rt
    {
      var needs := CheckNeedsRefresh(now);
      sent, rt' := None, rt;
      if needs {
        sent := Some(rt);
        match outcome
        case Failed =>
        case Responded(resp, clock) =>
          if resp.accessToken.Some? {
            accessToken := resp.accessToken;
            if resp.refreshToken.Some? {
              refreshToken := resp.refreshToken;
              rt' := resp.refreshToken.value;
            }
            var expiry := ExpiryFrom(clock, resp.expiresIn);
            if expiry.Some? {
              expiresAt := expiry;
              saved := saved + [Record()];
            }
          }
      }
    }

    /** `token_manager_loop` over a run of iterations (the run ends when
        the stop event is set). With no refresh token at the start it
        returns before the loop: no refresh call, nothing changed. */
    method Run(ticks: seq<Tick>) returns (attempts: nat)
      modifies this
      ensures !Truthy(old(refreshToken)) ==>
        attempts == 0 && Record() == old(Record()) && saved == old(saved)
      ensures Truthy(old(refreshToken)) ==>
        var t := Replay(old(Record()), ticks);
        Record() == t.record && attempts == t.attempts && saved == old(saved) + t.saves
    {
      attempts := 0;
      if refreshToken.None? || refreshToken.value == "" {
        return;
      }
      var rt := refreshToken.value;
      var i := 0;
      while i < |ticks|
        invariant 0 <= i <= |ticks|
        invariant refreshToken == Some(rt)
        invariant Record() == Replay(old(Record()), ticks[..i]).record
        invariant attempts == Replay(old(Record()), ticks[..i]).attempts
        invariant saved == old(saved) + Replay(old(Record()), ticks[..i]).saves
      {
        assert ticks[..i + 1][..i] == ticks[..i];
        var sent;
        sent, rt := Step(rt, ticks[i].now, ticks[i].outcome);
        if sent.Some? {
          attempts := attempts + 1;
        }
        i := i + 1;
      }
      assert ticks[..i] == ticks;
    }
  }
}
