# NeonSpotOBS core, modelled in Dafny

NeonSpotOBS shows a Spotify "now playing" card as a local web page for
streaming software. Around its HTTP server and desktop window sit five pieces of
sequential logic. All five are modelled here, and their properties are proved:

- **Token refresh** (`token_manager_loop`). The refresh loop works on the
  credential record: access token, refresh token, and expiry in whole seconds. It
  renews the access token 30 seconds before it expires. It keeps the refresh
  token unless the provider sends a new one. It saves every renewed record that
  got a new expiry. A response whose `expires_in` is not a number still leaves
  the new tokens in memory, with the old expiry, and nothing is saved. It
  does nothing at all when no refresh token is present at the start. The record
  that `complete_auth` builds after the code exchange uses the same expiry rule.
  (`TokenManager`, class `TokenManager.TokenStore`.)
- **Playback polling** (`playback_poll_loop`, `get_current_playback`). The poller
  holds `last_update` and the shared snapshot `current_track_data`. It fetches
  only when there is an access token and 2 seconds have passed since the last
  fetch that returned. It publishes whatever a fetch returns, which includes
  `None` for the 204 and 429 replies. A fetch that raises changes nothing.
  (`SpotifyApi`, `PlaybackPoller`, class `PlaybackPoller.Poller`.)
- **Track display** (`format_track_display`, `format_time`). This turns a
  playback snapshot into the fields of the card: title, artists joined by
  `", "`, album, first image URL, and two `M:SS` times. It can also give the
  fixed "nothing is playing" block, or an exception. (`TrackDisplay`.)
- **Stylesheet variable lookup** (`extract_color_from_css`). This finds the
  first line that mentions the variable and holds a colon. It cuts the value
  out of that line and turns `rgba(r, g, b…)` into `#rrggbb`. (`CssSettings`.)
- **Stylesheet variable update** (`update_css_color` and `toggle_card`, text
  edit only). This replaces, in place, the first line that mentions the
  variable. Reading the variable back then gives the written value, for a name
  without `:` and a value with no `:`, `;`, `rgba` or surrounding whitespace.
  Through the whole stylesheet text, neither may also hold a newline.
  (`CssSettings`.)

Python's string built-ins that these pieces use are modelled in `PyStr`, with
their Python semantics: `in`, `split`, `join`, `strip`, `replace(p, '')`,
`int()`, `str()`, and the format specs `02d` and `02x`. `Wrappers` gives
`Option` (Python `None` or a missing key) and `Result`.

HTTP replies, clock readings and stop-event timing are inputs. An HTTP outcome
is a value of `SpotifyApi.HttpReply` or `TokenManager.RefreshOutcome`. A run of
a background loop is a sequence of iterations, each with its own inputs. The
run ends when the stop event is set.

## Model

| member | source | states |
|---|---|---|
| `TokenManager.TokenStore.CheckNeedsRefresh` | main.py:127-135 | The flag is false exactly when the access token is non-empty, an expiry is present, and `now < expires_at - 30`. Otherwise it is true. |
| `TokenManager.TokenStore.Step` | main.py:127-148 | One loop iteration. A refresh call is made, with the loop's refresh token, exactly when the record needs a refresh. The new record and the save log are those of `StepEffect`. The loop's local refresh token follows the response's `refresh_token` when the response has one. |
| `TokenManager.TokenStore.Run` | main.py:122-148 | With no refresh token, or an empty one, at the start: zero refresh calls, and the record and the save log are unchanged. Otherwise the record, the number of refresh calls and the saved records are those of the replayed iterations. |
| `TokenManager.ExpiryFrom` | main.py:143-144 | The expiry is the response clock plus `expires_in`, or plus 3600 when the response has none. There is no expiry when the value is not a number. |
| `TokenManager.StepOutcome` | main.py:136-147 | An iteration saves exactly when a refresh was needed, the call returned, and the response had `access_token` and a numeric or absent `expires_in`. A saved record has the new access token. Its refresh token is the new one if sent, else the old one. Its expiry is `clock + expires_in`, with 3600 when absent. A failed call, a response without `access_token`, or no need to refresh leaves the record unchanged. An `expires_in` that is not a number leaves the new access token, and the new refresh token if sent, in the record with the old expiry, unsaved: the assignments at 139-142 happen before the `timedelta` at 144 raises. |
| `TokenManager.RefreshedIsFresh` | main.py:129-145 | After a successful refresh with a non-empty access token, the record needs no refresh at any time before `expiry - 30`. |
| `TokenManager.ExpiryAdvances` | main.py:134-144 | A refresh caused by the clock, with a lifetime above 30 s and a response clock no earlier than the check, moves the expiry strictly forward. |
| `TokenManager.ExpiredOneSecondAgo` | main.py:129-145 | A token that expired one second ago needs a refresh. After a successful refresh with a lifetime above 30 s, read at the same `now`, it does not. |
| `TokenManager.RefreshTokenRetained` | main.py:139-142 | Over any run, a refresh token that was present stays present. It is either the original token or one the provider sent in a response that also carried `access_token`. |
| `TokenManager.FailuresKeepRecord` | main.py:137-147 | When every refresh call in a run fails, the record is unchanged and nothing is saved. |
| `TokenManager.SavesAreComplete` | main.py:139-145 | Every saved record has an access token and an expiry. Over a run, saves ≤ refresh calls ≤ iterations. |
| `TokenManager.FromCodeExchange` | main.py:502-508 | The record succeeds exactly when the response has `access_token` and a numeric or absent `expires_in`. It has that access token. Its refresh token is the response's, possibly `None`. Its expiry follows the refresh rule. |
| `TokenManager.FreshAuthRecord` | main.py:503-508 | A freshly authenticated record needs no refresh before `expiry - 30`, like a refreshed one. |
| `SpotifyApi.GetCurrentPlayback` | main.py:110-120 | 204 and 429 return `None`. A call raises exactly when there is no reply, or when a status other than 204 or 429 is 4xx/5xx or comes with a body that is not JSON. Whenever a status other than 204 or 429 returns, the result is the reply's JSON body, for 1xx, 3xx and 600+ as for 2xx. A returned payload is never from a 4xx/5xx status. |
| `SpotifyApi.SuccessReturnsPayload` | main.py:119-120 | A 2xx reply other than 204 returns its JSON body unchanged. |
| `PlaybackPoller.Poller.Step` | main.py:152-167 | The endpoint is called exactly when there is an access token and `now - last_update >= 2`. The new state is that of `PollStep`. |
| `PlaybackPoller.Poller.Run` | main.py:150-167 | The poller's state and its number of endpoint calls after a run are those of the replayed iterations. |
| `PlaybackPoller.Poller.constructor` | main.py:151 | The loop starts with `last_update = 0` and an empty snapshot. |
| `PlaybackPoller.PollStepOutcome` | main.py:153-166 | With no access token, or before the interval has passed, the state is unchanged. A fetch that raises leaves both the snapshot and `last_update` unchanged. A fetch that returns sets the snapshot to the result and `last_update` to `now`. |
| `PlaybackPoller.RateLimitClearsSnapshot` | main.py:114-164 | A 429 reply, like a 204, replaces the snapshot with `None` and advances `last_update`. |
| `PlaybackPoller.RaisedRetriedNext` | main.py:158-166 | A fetch that raises leaves `last_update` as it was, so the next iteration with a token and a clock no earlier fetches again. There is no backoff after an error. |
| `PlaybackPoller.RateBound` | main.py:158-164 | After k fetches that returned, `last_update` has advanced by at least 2k seconds. |
| `PlaybackPoller.NoTokenNoChange` | main.py:153-156 | Without an access token, no fetch is made and the state never changes. |
| `PlaybackPoller.ErrorsKeepSnapshot` | main.py:159-166 | When every fetch raises, the last fetched snapshot and `last_update` are kept. |
| `TrackDisplay.FormatTimeReadsBack` | main.py:181-185 | For `ms ≥ 0`, the result ends in `:SS`. `SS` is two digits worth less than 60. The minutes have no leading zero. `minutes * 60 + SS` is `ms div 1000`. |
| `TrackDisplay.FormatTimeExamples` | main.py:181-185 | 125000 → `2:05`, 59000 → `0:59`, 3600000 → `60:00`, 999 → `0:00`, and -1500 → `-1:59` (truncation, then floor division). |
| `TrackDisplay.ArtistNames` | main.py:174 | The names come out in order, one per artist. There is no result (the code raises `KeyError`) exactly when some artist has no name. |
| `TrackDisplay.FormatTrackDisplay` | main.py:169-187 | The result is "nothing playing" exactly when there is no data or no item. It raises exactly when an item is present and an artist has no name, the first image has no URL, or `duration_ms` is 0. |
| `TrackDisplay.CardFields` | main.py:172-187 | A card's title and album default to `""`. Its artists string is the names joined by `", "`. Its image is the first image's URL, or `""` when there is none. Its times are `format_time` of the progress (default 0 → `0:00`) and the duration (default 1 → `0:00`). |
| `TrackDisplay.ArtistsSplitBack` | main.py:174 | When no name holds a comma, splitting the artists string at commas gives back the names in order. Every name after the first comes back behind one space. |
| `CssSettings.FirstDeclaration` | main.py:534-535 | This is the first index whose line mentions the variable and holds `:`. There is none exactly when no line does. |
| `CssSettings.ExtractColor` | main.py:533-548 | The scan returns `ColorOf` of the first declaring line's value, or `None` when no line declares the variable. |
| `CssSettings.SplitHasTwo` | main.py:536-537 | A line holding `:` splits into at least two parts, so `parts[1]` always exists. |
| `CssSettings.HexColorOfBytes` | main.py:544 | Components in 0..255 give exactly `#` and six lower-case hex digits. Each pair of digits reads back as its component. |
| `CssSettings.RgbaDecodes` | main.py:539-544 | `rgba(r, g, b)` written with decimal bytes decodes to the `#rrggbb` of r, g and b. |
| `CssSettings.NoRgbaKept` | main.py:539-547 | Any value that does not mention `rgba` is returned unchanged. |
| `CssSettings.HexValueKept` | main.py:547 | Example: `#00ff00` is returned unchanged. |
| `CssSettings.ColorOfRgb` | main.py:539-544 | An `rgba` value with at least three parts, whose first three components all parse as integers, gives the `#rrggbb` of those integers. |
| `CssSettings.ColorOfBadRgb` | main.py:539-546 | An `rgba` value with at least three parts, one of whose first three components `int()` rejects, gives `None`. |
| `CssSettings.NonIntegerRgbaIsNone` | main.py:539-546 | `rgba(1, 2, x)` gives `None`. |
| `CssSettings.DefaultProgressStart` | main.py:539-544 | The default `rgba(94, 255, 155)` reads as `#5eff9b`. |
| `CssSettings.ColorOfShort` | main.py:542-547 | An `rgba` value with fewer than three comma-separated parts is returned raw. |
| `CssSettings.ShortRgbaKept` | main.py:542-547 | Example: `rgba(1, 2)` is returned raw. |
| `CssSettings.FirstMention` | main.py:566-567 | This is the first index whose line mentions the variable, with no colon needed. There is none exactly when no line does. |
| `CssSettings.ReplacedLines` | main.py:566-569 | Only the first line that mentions the variable becomes `"    " + var + ": " + value + ";"`. All other lines, and the line count, are unchanged. |
| `CssSettings.NoMentionUnchanged` | main.py:566-570 | When no line mentions the variable, the lines are unchanged. |
| `CssSettings.ReplaceInPlace` | main.py:566-569 | The in-place loop with `break` leaves the array equal to `Replaced` of its old contents. |
| `CssSettings.UpdateCssColor` | main.py:563-571 | The new stylesheet is the edited lines of the old one, joined by newlines. |
| `CssSettings.ToggleCard` | main.py:574-576 | This sets `--card-display` to `flex` when the card is shown and to `none` otherwise. |
| `CssSettings.DeclarationReadsBack` | main.py:536-568 | The written line declares the variable. The reader cuts exactly the value back out of it and returns it unchanged, given a variable without `:` and a plain value: no `:`, `;` or `rgba`, and no surrounding whitespace. |
| `CssSettings.UpdateThenExtract` | main.py:534-569 | After the edit of lines that mention the variable, reading the variable back gives the written value. |
| `CssSettings.UpdateCssThenExtract` | main.py:563-570 | The same holds for the whole text: split, edit, join, split again, then read. This also needs neither variable nor value to hold a newline, so that the line split keeps the written line whole. |
| `CssSettings.ToggleThenExtract` | main.py:574-576 | In a stylesheet that mentions `--card-display`, reading it after `toggle_card` gives `flex` or `none`. |
| `PyStr.JoinSplit` | main.py:565-570 | `'\n'.join(css.split('\n')) == css`. |
| `PyStr.SplitJoin` | main.py:565-570 | Splitting a join again gives back the parts, when no part holds the separator. |
| `PyStr.NatToDecValue` | main.py:185 | `str(n)` reads back as `n` and has no leading zero. |
| `PyStr.Pad2Value` | main.py:185 | `f"{n:02d}"` for n < 100 is exactly two digits that denote `n`. |
| `PyStr.ParseIntDec` | main.py:543 | `int(str(i)) == i`. |
| `PyStr.StripTrims` | main.py:538 | `strip()` leaves no whitespace at either end, and leaves a trimmed string unchanged. |
| `PyStr.Hex02Byte` | main.py:544 | `f"{n:02x}"` for a byte is exactly two lower-case hex digits that denote `n`. |
| `TokenManager.NeedsRefresh` | main.py:127-135 | Definition of the refresh rule; no contract. |
| `TokenManager.ApplyResponse` | main.py:139-145 | Definition: the assignments of the `try` body in order, stopping at the first that raises; no contract (stated by `StepOutcome`). |
| `TokenManager.StepEffect` | main.py:129-147 | Definition of one iteration's effect; no contract (stated by `StepOutcome`). |
| `TokenManager.Replay` | main.py:126-148 | Definition of a run of iterations; no contract (stated by the run lemmas). |
| `PlaybackPoller.Fetches` | main.py:153-158 | Definition of the fetch condition; no contract. |
| `PlaybackPoller.PollStep` | main.py:153-166 | Definition of one iteration; no contract (stated by `PollStepOutcome`). |
| `PlaybackPoller.PollReplay` | main.py:152-167 | Definition of a run of iterations; no contract (stated by the run lemmas). |
| `TrackDisplay.WholeSeconds` | main.py:182 | Definition of `int(ms / 1000)`, truncating toward zero; no contract. |
| `TrackDisplay.FormatTime` | main.py:181-185 | Definition of `format_time`; no contract (stated by `FormatTimeReadsBack` and `FormatTimeExamples`). |
| `TrackDisplay.FirstImageUrl` | main.py:176-177 | Definition of `images[0]['url'] if images else ''`; no contract. |
| `TrackDisplay.Images` | main.py:176 | Definition of the nested `get` with defaults; no contract. |
| `CssSettings.DeclaredValue` | main.py:536-538 | Definition of `line.split(':')[1].split(';')[0].strip()`; no contract (stated by `DeclarationReadsBack`). |
| `CssSettings.RgbaParts` | main.py:541 | Definition of the two `replace` calls and the comma split; no contract. |
| `CssSettings.ParseRgb` | main.py:543 | Definition of the three `int(x.strip())`; no contract. |
| `CssSettings.HexColor` | main.py:544 | Definition of `f'#{r:02x}{g:02x}{b:02x}'`; no contract (stated by `HexColorOfBytes`). |
| `CssSettings.ColorOf` | main.py:538-547 | Definition of the value decoding; no contract (its three branches are stated by `RgbaDecodes`/`ColorOfRgb`, `ColorOfBadRgb` and `ColorOfShort`/`NoRgbaKept`). |
| `CssSettings.Extracted` | main.py:533-548 | Definition of the lookup's result; no contract (stated by `ExtractColor` and the round-trip lemmas). |
| `CssSettings.DeclarationLine` | main.py:568 | Definition of `f"    {var_name}: {color_value};"`; no contract. |
| `CssSettings.Replaced` | main.py:566-569 | Definition of the edited lines; no contract (stated by `ReplacedLines` and `NoMentionUnchanged`). |
| `SpotifyApi.ErrorStatus` | main.py:119 | Definition of the statuses `raise_for_status()` raises for (400–599); no contract. |
| `PyStr.Truthy` | main.py:124 | Definition of Python truthiness of an optional string (present and non-empty), as at main.py:124, 130 and 154; no contract. |
| `PyStr.Contains` | main.py:535 | Definition of `sub in s`; no contract. |
| `CssSettings.Declares` | main.py:535 | Definition of the test `var_name in line and ':' in line`; no contract. |
| `TrackDisplay.GetOr` | main.py:173-179 | Definition of `dict.get(key, default)`; no contract. |
| `PyStr.Split` | main.py:536 | Definition of `s.split(c)`; it always gives at least one piece. |
| `PyStr.Join` | main.py:570 | Definition of `sep.join(parts)`; no contract (stated by `JoinSplit` and `SplitJoin`). |
| `PyStr.IsSpace` | main.py:538 | Definition of the `str.isspace` set that `strip()` removes (used at main.py:538 and 543); no contract. |
| `PyStr.Strip` | main.py:538 | Definition of `s.strip()` over the `isspace` characters; no contract (stated by `StripTrims`). |
| `PyStr.RemoveAll` | main.py:541 | Definition of `s.replace(pat, '')`, left to right; no contract. |
| `PyStr.ParseInt` | main.py:543 | Definition of `int(s)` on a stripped string; no contract (stated by `ParseIntDec`). |
| `PyStr.NatToDec` | main.py:185 | Definition of `str(n)`; the result is a non-empty string of digits. |
| `PyStr.IntToDec` | main.py:185 | Definition of `str(i)`; no contract (stated by `ParseIntDec`). |
| `PyStr.Pad2` | main.py:185 | Definition of `f"{n:02d}"`; no contract (stated by `Pad2Value`). |
| `PyStr.NatToHex` | main.py:544 | Definition of `format(n, 'x')`, the digits inside `02x`; the result is a non-empty string of lower-case hex digits. |
| `PyStr.Hex02` | main.py:544 | Definition of `f"{n:02x}"`; no contract (stated by `Hex02Byte`). |

## Behaviour to note

- **429 replies.** A 429 makes `get_current_playback` return `None` after its
  pause (main.py:116-118). The poller stores that `None` as the snapshot and
  advances `last_update` (main.py:161-164). `RateLimitClearsSnapshot` states
  this.
- **Errors are retried at once.** A fetch that raises leaves `last_update`
  unchanged (main.py:158-166). So the next iteration, about 0.1 s later, fetches
  again. `RaisedRetriedNext` states this.
- **The snapshot is the raw reply.** The poller stores the fetched value as it
  is (main.py:161-163). It keeps no timestamp of when a track was last playing
  and no playing flag.
- **Zero duration.** Only a missing `duration_ms` defaults to 1 (main.py:179). A
  `duration_ms` of 0 raises `ZeroDivisionError` at main.py:180.
  `FormatTrackDisplay` gives `Raises` then.
- **Expiry moving forward.** A refresh sets `expires_at` to the clock after the
  response plus `expires_in` (main.py:143-144). That moves the expiry forward
  only under the conditions of `ExpiryAdvances`.
- **A bad `expires_in`.** When `expires_in` is not a number, the new tokens are
  already in the record (main.py:139-142) when `timedelta` raises at
  main.py:144. The record in memory then differs from the one on disk until the
  next successful refresh. `StepOutcome` states this.
- **Status codes.** `raise_for_status` raises only for 400–599 (main.py:119). So
  1xx, 3xx and 600+ replies reach `r.json()` like 2xx ones.

## Left out

- HTTP: `requests` calls, the Basic header via `base64`, the `urlencode` of
  `build_auth_url`, and the 2-second sleep on 429. Replies and exceptions are
  inputs. Elapsed time during a call is the separate `clock` of a refresh
  response.
- Files: `load_/save_tokens`, `load_/save_css`, `load_/save_client_credentials`
  and `create_default_css`. A save is modelled as an entry appended to
  `TokenStore.saved`, and the model assumes it never fails. In the code, a
  failing `save_tokens` would leave the renewed record in memory unsaved.
- Concurrency and logging: threads, `data_lock`, `stop_event`, the `time.sleep`
  cadences, the `auth_code_q` hand-off, and the `print` of a refresh error
  (main.py:147). A loop is a sequence of iterations, which makes
  each snapshot write a single atomic step.
- Dates: ISO-8601 parsing and timezone defaulting. An expiry is an integer
  number of seconds. So the uncaught exception that `datetime.fromisoformat`
  raises on a malformed stored `expires_at` (main.py:131), which ends the loop's
  thread, is not modelled. Timedelta overflow is not modelled either.
- TrackDisplay.FormatTrackDisplay: does not compute the float percentage
  `min(100, progress/duration*100)` or the HTML markup. Only its
  division-by-zero exception is kept.
- TrackDisplay.FormatTime: treats `ms / 1000` as exact. The float rounding that
  makes a very large `ms` (above 2^53) inexact is left out.
- JSON value types: a present key is taken to hold the expected type (string,
  integer, list, object). `null` or wrongly typed values under present keys, and
  a top-level JSON value that is not an object, are left out. So are the
  `AttributeError`/`TypeError` that such values would raise. A falsy `item`
  (`null` or `{}`) is modelled as an absent item.
- `expires_in`: a float value is left out. A non-numeric value is one neither
  `timedelta` nor `int()` accepts. `int("3600")` on a numeric string in
  `complete_auth` is not distinguished.
- PyStr.ParseInt: accepts an optional sign and ASCII digits only. Python's
  `int()` also accepts underscores between digits and non-ASCII decimal digits.
- Flask routes, `INDEX_HTML`, the Tkinter window, colour chooser, message boxes,
  tray icon, `load_existing_credentials`, `start_server`,
  `update_color_previews` and `choose_color`: these are user interface and
  presentation. The core functions they call are modelled.
