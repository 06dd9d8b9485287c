/** The background loop that polls the currently-playing endpoint
    (`playback_poll_loop`) and publishes what it gets into the shared
    snapshot `current_track_data`. Clock readings (`time.time()`) are
    reals; the HTTP reply of each fetch is an input. */
module PlaybackPoller {
  import opened Wrappers
  import opened PyStr
  import opened SpotifyApi

  /** Minimum time, in seconds, between two fetches (`POLL_INTERVAL`). */
  const PollInterval: real := 2.0

  /** The loop's local `last_update` and the shared snapshot. */
  datatype PollState = PollState(lastUpdate: real, snapshot: Option<Playback>)

  /** The state the process starts with: `last_update = 0` and
      `current_track_data = None`. */
  const Initial: PollState := PollState(0.0, None)

  /** One iteration's inputs: the access token read from the credential
      record, the clock, and the reply the fetch would receive. */
  datatype PollTick = PollTick(accessToken: Option<string>, now: real, reply: HttpReply)

  /** An iteration fetches only with an access token and once the interval
      has elapsed since the last fetch that did not raise. */
  predicate Fetches(s: PollState, t: PollTick) {
    Truthy(t.accessToken) && t.now - s.lastUpdate >= PollInterval
  }

  /** One iteration: a fetch that returns (including `None` for 204 and
      429) replaces the snapshot and advances `last_update`; one that
      raises changes neither. */
  function PollStep(s: PollState, t: PollTick): PollState {
    if !Fetches(s, t) then s
    else match GetCurrentPlayback(t.reply)
      case Raised => s
      case Returned(data) => PollState(t.now, data)
  }

  /** A run of iterations: the final state, how many times the endpoint
      was called, and how many of those calls returned. */
  datatype PollTrace = PollTrace(state: PollState, fetches: nat, updates: nat)

  function PollReplay(s: PollState, ticks: seq<PollTick>): PollTrace
    decreases |ticks|
  {
    if |ticks| == 0 then PollTrace(s, 0, 0)
    else
      var t := PollReplay(s, ticks[..|ticks| - 1]);
      var last := ticks[|ticks| - 1];
      var fetches := Fetches(t.state, last);
      var returned := fetches && GetCurrentPlayback(last.reply).Returned?;
      PollTrace(PollStep(t.state, last),
                t.fetches + (if fetches then 1 else 0),
                t.updates + (if returned then 1 else 0))
  }

  // ---------------------------------------------------------------------
  // Properties of one iteration

  /** The three outcomes of an iteration, stated for every input. */
  lemma PollStepOutcome(s: PollState, t: PollTick)
    ensures !Truthy(t.accessToken) ==> PollStep(s, t) == s
    ensures t.now - s.lastUpdate < PollInterval ==> PollStep(s, t) == s
    ensures Fetches(s, t) && GetCurrentPlayback(t.reply).Raised? ==> PollStep(s, t) == s
    ensures Fetches(s, t) && GetCurrentPlayback(t.reply).Returned? ==>
      PollStep(s, t) == PollState(t.now, GetCurrentPlayback(t.reply).data)
  {
  }

  /** A rate-limited reply (429) does not keep the old snapshot: it
      replaces it with `None`, exactly like a 204. */
  lemma RateLimitClearsSnapshot(s: PollState, token: string, now: real, body: Body)
    requires token != "" && now - s.lastUpdate >= PollInterval
    ensures PollStep(s, PollTick(Some(token), now, Reply(429, body))) == PollState(now, None)
    ensures PollStep(s, PollTick(Some(token), now, Reply(204, body))) == PollState(now, None)
  {
  }

  /** A fetch that raises does not advance `last_update`, so the next
      iteration with a token fetches again: there is no backoff after an
      error. */
  lemma RaisedRetriedNext(s: PollState, t: PollTick, t': PollTick)
    requires Fetches(s, t) && GetCurrentPlayback(t.reply).Raised?
    requires Truthy(t'.accessToken) && t'.now >= t.now
    ensures Fetches(PollStep(s, t), t')
  {
  }

  // ---------------------------------------------------------------------
  // Properties of a run

  /** Fetches that return are spaced by at least the poll interval:
      after `k` of them, `last_update` has advanced by at least `2k`
      seconds, whatever the clock does. */
  lemma {:induction false} RateBound(s: PollState, ticks: seq<PollTick>)
    ensures var t := PollReplay(s, ticks);
      t.state.lastUpdate - s.lastUpdate >= (t.updates as real) * PollInterval
    decreases |ticks|
  {
    if |ticks| > 0 {
      RateBound(s, ticks[..|ticks| - 1]);
    }
  }

  /** Without an access token the poller never fetches and never changes
      its state. */
  lemma {:induction false} NoTokenNoChange(s: PollState, ticks: seq<PollTick>)
    requires forall i | 0 <= i < |ticks| :: !Truthy(ticks[i].accessToken)
    ensures PollReplay(s, ticks) == PollTrace(s, 0, 0)
    decreases |ticks|
  {
    if |ticks| > 0 {
      NoTokenNoChange(s, ticks[..|ticks| - 1]);
    }
  }

  /** When every fetch raises, the last snapshot that was fetched is kept
      (last-known-good). */
  lemma {:induction false} ErrorsKeepSnapshot(s: PollState, ticks: seq<PollTick>)
    requires forall i | 0 <= i < |ticks| :: GetCurrentPlayback(ticks[i].reply).Raised?
    ensures PollReplay(s, ticks).state == s && PollReplay(s, ticks).updates == 0
    decreases |ticks|
  {
    if |ticks| > 0 {
      ErrorsKeepSnapshot(s, ticks[..|ticks| - 1]);
    }
  }

  // ---------------------------------------------------------------------
  // The loop itself, over the mutable state

  /** `last_update` (local to the loop) and `current_track_data` (the
      shared global the HTTP routes read). */
  class Poller {
    var lastUpdate: real
    var currentTrackData: Option<Playback>

    function State(): PollState
      reads this
    {
      PollState(lastUpdate, currentTrackData)
    }

    constructor ()
      ensures State() == Initial
    {
      lastUpdate, currentTrackData := 0.0, None;
    }

    /** One iteration of `playback_poll_loop`; `fetched` tells whether the
        endpoint was called. */
    method Step(t: PollTick) returns (fetched: bool)
      modifies this
      ensures fetched == Fetches(old(State()), t)
      ensures State() == PollStep(old(State()), t)
    {
      fetched := false;
      if t.accessToken.None? || t.accessToken.value == "" {
        return;  // sleep(1); continue
      }
      var currentTime := t.now;
      if currentTime - lastUpdate >= PollInterval {
        fetched := true;
        var data := GetCurrentPlayback(t.reply);
        if data.Returned? {
          currentTrackData := data.data;
          lastUpdate := currentTime;
        }
      }
    }

    /** `playback_poll_loop` over a run of iterations (the run ends when
        the stop event is set); `fetches` counts the calls to the endpoint. */
    method Run(ticks: seq<PollTick>) returns (fetches: nat)
      modifies this
      ensures State() == PollReplay(old(State()), ticks).state
      ensures fetches == PollReplay(old(State()), ticks).fetches
    {
      fetches := 0;
      var i := 0;
      while i < |ticks|
        invariant 0 <= i <= |ticks|
        invariant State() == PollReplay(old(State()), ticks[..i]).state
        invariant fetches == PollReplay(old(State()), ticks[..i]).fetches
      {
        assert ticks[..i + 1][..i] == ticks[..i];
        var fetched := Step(ticks[i]);
        if fetched {
          fetches := fetches + 1;
        }
        i := i + 1;
      }
      assert ticks[..i] == ticks;
    }
  }
}
