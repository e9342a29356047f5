# MTA arrivals sign — a Dafny model

The sign runs on a MatrixPortal M4 LED board and shows the next three
northbound and southbound trains at one subway stop. Two hardware buttons
switch between the L line (Graham Av) and the G line (Metro Av). Every
30 seconds the firmware syncs its clock if a sync is due, then fetches the
stop's arrival records and keeps those on the active route. It turns each
arrival into minutes from now, drops trains already gone and writes the first
three per direction into two comma-joined labels. After a failure that does
not reset the board, it tries to reconnect the Wi-Fi link if the link is down,
resetting the Wi-Fi coprocessor once if the first attempt fails; a second
failed attempt is swallowed. When three failures in a row have already been
counted, the next one resets the whole board instead.

The model covers the pure arrival arithmetic of `logic.py` and the control loop of
`code.py`:

- `logic.dfy` (module `Logic`): minutes from now with Python's rounding, the
  upcoming-only filter, and the three display slots.
- `decimal.dfy` (module `Decimal`): Python's `str` of an integer, with its
  canonical inverse.
- `seqs.dfy` (module `Seqs`): the list-comprehension filter, with the proof
  that it keeps exactly the matching elements in order.
- `stations.dfy` (module `Stations`): the `STATIONS` registry and the
  endpoint built from it.
- `arrivals.dfy` (module `Arrivals`): `get_arrival_times`, which splits the
  feed by route and orders the six strings, and `update_text`, which builds
  the two labels.
- `resilience.dfy` (module `Resilience`): the escalation chain of
  `attempt_wifi_reconnect`, as the list of requests it makes.
- `effects.dfy` (module `Effects`): the requests the sign makes of its
  hardware.
- `controller.dfy` (module `Controller`): the state the loop keeps, one
  iteration of `while True` as the pure function `Step`, runs of iterations
  as `Iterate`, and the class `Sign`. The fields of `Sign` are the
  module-level variables the loop assigns. Its methods (`SwitchLine`,
  `UpdateText`, `AttemptWifiReconnect`, `Tick`, `Run`, …) update them in
  place and are proved equal to the pure functions.

Hardware is modelled as data:

- Each iteration's outcomes arrive as an `Env` value: button edges, the
  monotonic clock readings, wall-clock time, whether the sync succeeds, what
  the fetch returns, and how the Wi-Fi link behaves.
- Everything the sign asks of the hardware is appended to `requested` as an
  `Action`: load a logo, show the display, sync the clock, fetch a URL,
  connect, reset the coprocessor, pause, reset the board.

Timestamps are already parsed. A `Timestamp` is the clock reading in whole
seconds plus the UTC offset, if any. A time string that does not parse is
`None`; on a record of the active route it raises `ValueError`, which the
loop's `except` clause catches.

Three behaviours of `logic.py` and `code.py` worth stating:

- Rounding. `round` in `logic.py:8` is Python 3's round-half-to-even: 30 s
  gives 0 minutes, 90 s gives 2 and −30 s gives 0. `RoundMinutes` models it
  exactly, and `MinutesFromNowExamples` checks all three ties (30 s, 90 s and −30 s).
- Start-up labels. At start-up both arrival labels read `-`
  (`code.py:144,146`). `switch_line` writes `-,-,-`, and so does `update_text`
  for a direction with no upcoming train. A first fetch that fails therefore
  leaves `-` on the display.
- Bad timestamps. A timestamp that does not parse raises `ValueError` inside
  the `try` block, and `code.py:190` catches it. It therefore counts towards
  the board reset like any network failure.

## Model

| member | source | states |
|---|---|---|
| Logic.RoundMinutes | logic.py:8 | the result is the nearest whole minute to the seconds over 60, ties going to the even neighbour (Python's `round`) |
| Logic.NearestMinuteUnique | logic.py:8 | the nearest-minute relation has exactly one solution, so the rounding is fully determined |
| Logic.Naive | logic.py:7 | `.replace(tzinfo=None)` keeps the wall-clock reading and drops the offset without converting it. It has no contract of its own; its consequence is stated by `OffsetIgnored` |
| Logic.MinutesFromNow | logic.py:6-8 | minutes to the arrival are the rounded naive difference; the result is non-negative exactly when the train is at most 30 s in the past |
| Logic.OffsetIgnored | logic.py:7 | the UTC offset a timestamp carries never changes the minutes: it is dropped, not applied |
| Logic.MinutesFromNowExamples | test_logic.py:6-25 | +10 min gives 10; 15 min with "-05:00" gives 15; 30 s gives 0; 90 s gives 2; −10 min gives −10; 0 gives 0; the tie −30 s gives 0 |
| Logic.MinutesList | logic.py:12 | one entry per timestamp, in order, each the nearest minute to its offset from now, and upcoming exactly when the train is at most 30 s past |
| Logic.IsUpcoming | logic.py:13 | the `m >= 0` test of the filter. It has no contract of its own; `MinutesList` and `FilterArrivalsInOrder` state what it keeps |
| Logic.FilterArrivals | logic.py:11-13 | every kept value is ≥ 0, the output is no longer than the input, and empty input gives empty output |
| Logic.FilterArrivalsInOrder | logic.py:11-13 | the output is the minutes at strictly increasing input positions, and a position is kept exactly when its arrival is at most 30 s past (0 is kept) |
| Logic.FilterArrivalsExamples | test_logic.py:29-50 | [−5, 3, 20 min] gives [3, 20]; [0] gives [0]; an all-past list gives [] |
| Logic.FilterArrivalsSmallExamples | test_logic.py:38-55 | [] gives []; [+1, +2 min] gives [1, 2] |
| Logic.FormatArrivalTriple | logic.py:16-20 | slot i shows `str(ms[i])` when the list has an element i, and "-" otherwise, for each of the three slots |
| Logic.SlotDetermines | logic.py:17-19 | if one slot shows position i of two lists, either both lists lack that position or both hold the same value there ("-" is never the decimal form of an integer) |
| Logic.FormatUsesShownOnly | logic.py:16-20 | the triple depends only on the first three elements |
| Logic.SameTripleSameShown | logic.py:16-20 | equal triples imply equal first-three prefixes |
| Logic.FormatArrivalTripleExact | logic.py:16-20 | two lists give the same triple if and only if their first three elements (or all, if fewer) agree |
| Logic.FormatIgnoresTail | logic.py:16-20 | elements past index 2 are dropped |
| Logic.FormatArrivalTripleExamples | test_logic.py:59-72 | [10,20,30] and [10,20,30,40] give ("10","20","30"); [10,20] gives ("10","20","-"); [10] gives ("10","-","-"); [] gives ("-","-","-") |
| Decimal.NatToDecimal | logic.py:17 | decimal digits of a natural number, not empty, no leading zero except for 0, reading back as the number |
| Decimal.IntToString | logic.py:17-19 | `str(i)` parses back to `i` and consists only of digits and '-' |
| Decimal.ParseIntCanonical | logic.py:17-19 | any string that parses to `i` is exactly `str(i)` |
| Decimal.IntToStringInjective | logic.py:17-19 | different integers have different decimal strings |
| Seqs.Filter | logic.py:13 | the kept list is no longer than the input and holds only input elements satisfying the test |
| Seqs.FilterIsOrderedSelection | logic.py:13 | the kept list is the input at strictly increasing positions, exactly the positions whose element passes |
| Stations.RegistryHoldsEveryLine | code.py:22-37 | the registry has one entry per line under its name, no other keys, and no two lines share a name |
| Stations.StationOf | code.py:22-37 | each station's stop id is three characters and starts with the line's letter, its name starts with that letter, and its two direction names differ |
| Stations.DataSourceFor | code.py:97 | the endpoint is the API base followed by exactly the line's stop id |
| Stations.DataSourceIdentifiesLine | code.py:97 | the endpoint `…/by-id/<stop_id>` of two lines is equal only when the lines are |
| Arrivals.OnRoute | code.py:50-51 | the `x.get('route') == route` test; a record without a route never matches. It has no contract of its own; `RouteTimesInFeedOrder` states what it selects |
| Arrivals.RouteTimesInFeedOrder | code.py:50-51 | the direction list holds the times of exactly the records whose route is the active line, in feed order |
| Arrivals.ParseAll | code.py:57-58 | parsing succeeds exactly when every time parses, and gives those times in order |
| Arrivals.RouteTimes | code.py:50-51 | no more times than records, and each time is that of some record on the route |
| Arrivals.RouteTimeMissing | code.py:50-51 | a time of the route partition is missing exactly when some record on the route has no valid time |
| Arrivals.DirectionMinutes | code.py:50-58 | a direction fails exactly when a record of the active route has a bad time (records on other routes are never parsed); otherwise all minutes are ≥ 0 |
| Arrivals.DirectionMinutesValue | code.py:50-58 | when a direction parses, its minutes are those of the on-route records in feed order, each turned into minutes from now, filtered to the trains at most 30 s past |
| Arrivals.GetArrivalTimes | code.py:45-64 | the six strings exist exactly when both directions parse |
| Arrivals.IndexOfComma | code.py:68-69 | the first comma, or none when the string has no comma. It models no code of its own: like `SplitTriple`, it is the reader used to state that the labels written at these lines read back |
| Arrivals.SplitJoin | code.py:68-69 | a comma-free triple joined with commas splits back into itself |
| Arrivals.JoinTriple | code.py:68-69 | the `"%s,%s,%s"` label of a comma-free triple splits back into that triple |
| Arrivals.UpdateTextLabels | code.py:66-69 | the north label reads back as `(n0, n1, n2)` and the south label as `(s0, s1, s2)` whenever the slots hold no comma |
| Arrivals.FormattedHasNoComma | logic.py:16-20 | no display slot contains a comma |
| Arrivals.DisplayRoundTrip | code.py:60-69 | after the interleaved `n0,n1,s0,s1,n2,s2` order, the north label reads back as the north triple and the south label as the south triple |
| Resilience.ReconnectActions | code.py:72-91 | connected: no request. Otherwise it starts with a connect, makes at most two connects and one coprocessor reset, resets exactly when the first connect fails, and connects a second time exactly when that reset succeeds, with the reset between the two connects; there is exactly one 2 s pause, right after the reset and before the second connect, and only on that path; nothing escalates further |
| Controller.Initial | code.py:129-163 | the start-up state: line L, its endpoint, logo and direction names, labels "-", no fetch or sync yet, error count 0 |
| Controller.ButtonTarget | code.py:171-172 | no target without an edge; up selects L, winning a tie; down alone selects G |
| Controller.SwitchedTo | code.py:93-115 | the new line's endpoint, logo and direction names, both arrival labels "-,-,-", one logo load requested; line, last fetch, sync time and count are left to the caller |
| Controller.HandleButtons | code.py:171-177 | button handling keeps the state valid |
| Controller.ButtonHandling | code.py:93-115 | up wins a tie; a press for the active line (or no press) changes nothing; a switch sets the line, its logo, direction names, "-,-,-" labels, clears the last fetch and loads the new logo, leaving the sync time and error count |
| Controller.Due | code.py:180-183 | the strict schedule test `last is None or now > last + delay` of the fetch and the sync. It has no contract of its own; `DueIsStrict` states its properties |
| Controller.DueIsStrict | code.py:180-183 | nothing recorded means due; exactly `delay` seconds after the recorded time is not yet due, one second later is; once due, a later clock is still due |
| Controller.TryFetch | code.py:181-186 | the `try` block keeps the state valid |
| Controller.TryFetchProperties | code.py:181-186 | the block completes exactly when a due sync, the fetch and the parse succeed; only the sync time changes, and is kept even if the fetch then fails; the fetch asks for the active endpoint only, exactly when no due sync failed; the clock sync is requested exactly when it is due, and then first; the block requests nothing but the sync and the fetch |
| Controller.TryFetchRequestsOnce | code.py:183-186 | the clock sync is requested once when due and never otherwise; the fetch is requested once exactly when no due sync failed |
| Controller.Succeeded | code.py:187-189 | a completed block keeps the state valid |
| Controller.Failed | code.py:190-197 | a failure that does not reset the board keeps the state valid, with the error count still within the threshold |
| Controller.SucceededAfter | code.py:186-189 | the success branch's own requests follow the `try` block's, whatever those were |
| Controller.FailedAfter | code.py:190-197 | the `except` branch's own requests follow the `try` block's, whatever those were |
| Controller.FetchStep | code.py:180-197 | the fetch branch keeps the state valid unless it resets the board |
| Controller.ResetsLastAppend | code.py:193-196 | requests without a reset followed by requests with at most one final reset have at most one final reset |
| Controller.FetchStepRequests | code.py:181-186 | the branch fetches only the active endpoint, leaves the line and endpoint alone, and updates the sync time exactly when a due sync succeeds |
| Controller.FetchStepResets | code.py:193-195 | the branch asks for a board reset at most once, as its last request, exactly when it reports one |
| Controller.FetchStepFetchesOnce | code.py:180-197 | a due fetch branch asks for the data exactly once, unless a due clock sync failed, in which case it never does |
| Controller.FetchStepSuccess | code.py:186-189 | success shows the new arrivals in the two labels, clears the error count, records the time and ends by showing the display |
| Controller.FetchStepFailure | code.py:190-197 | failure keeps the display and counts the error; it resets the board if and only if the count passes 3, and otherwise runs the reconnect attempt and still records the time as backoff |
| Controller.Step | code.py:167-199 | an iteration keeps the state valid unless it resets the board |
| Controller.StepUnfolds | code.py:167-199 | an iteration handles the buttons, then runs the fetch branch on the resulting state exactly when a fetch is due, and does nothing else otherwise |
| Controller.StepRequests | code.py:171-186 | the iteration's requests start with those of the buttons, and every fetch uses the endpoint of the line active after the buttons |
| Controller.StepResets | code.py:193-195 | an iteration asks for a board reset at most once, last, exactly when it ends in one |
| Controller.FetchRunsExactlyWhenDue | code.py:180 | without a press, an iteration requests anything exactly when no fetch happened yet or strictly more than 30 s have passed |
| Controller.NoHotRetry | code.py:180-197 | after a fetch branch that did not reset, no fetch happens again within 30 s |
| Controller.Iterate | code.py:167-199 | a run stops early only on a board reset, and otherwise runs every iteration and stays valid |
| Controller.IterateResets | code.py:193-195 | a run asks for a board reset at most once, as its last request, exactly when it ends in one |
| Controller.IterateExtend | code.py:167 | one more iteration after a run without reset adds exactly that iteration's step |
| Controller.IterateStopsAtReset | code.py:195 | nothing runs after a board reset |
| Controller.PrefixExtend | code.py:167 | the run over one more element of the iteration list is the run so far plus one step |
| Controller.PrefixComplete | code.py:167 | a run that used every iteration or reset is the run over the full list |
| Controller.FailuresEscalate | code.py:190-197 | repeated failed fetches reset the board exactly when the count passes 3, on the iteration that makes it pass, and otherwise the count grows by one per failure |
| Controller.FourthFailureResets | code.py:161-197 | from start-up, the fourth consecutive failure resets the board, on the fourth iteration, once |
| Controller.Sign.constructor | code.py:129-163 | the fields hold the start-up state, and the requests are loading the L logo and showing the display |
| Controller.Sign.SwitchLine | code.py:93-115 | `switch_line` updates the endpoint, logo, direction names and labels as the pure switch does, requesting the new logo |
| Controller.Sign.UpdateText | code.py:66-70 | the two labels become the north and south joins of the sextuple, nothing else changes, and the display is shown |
| Controller.Sign.AttemptWifiReconnect | code.py:72-91 | the imperative try/except chain makes exactly the requests of `ReconnectActions` |
| Controller.Sign.TryFetchBlock | code.py:181-186 | the imperative `try` block matches `TryFetch` in state, requests and arrivals |
| Controller.Sign.Succeed | code.py:187-189 | matches the successful tail of the fetch branch |
| Controller.Sign.Fail | code.py:190-197 | matches the `except` branch, including the reset flag |
| Controller.Sign.FetchBranch | code.py:180-197 | matches `FetchStep` in state, requests and reset flag |
| Controller.Sign.PollButtons | code.py:168-177 | matches `HandleButtons` |
| Controller.Sign.Tick | code.py:167-199 | one pass of the loop body matches `Step` in state, requests and reset flag |
| Controller.Sign.Run | code.py:167-199 | the loop over a list of iterations, stopping at a board reset, matches `Iterate` |

## Left out

- Drawing: fonts, colours, pixel positions, bitmap files and their handles
  (`code.py:99-109`, `:117-150`). A logo change is the request `LoadLogo(file)`.
  The display group is `ShowDisplay`.
- `print` logging has no effect on the state and is left out.
- `time.sleep(0.1)` at the end of each pass (`code.py:199`) only paces the loop,
  and is left out.
- The 2 s sleep after a coprocessor reset is the request `Pause(2)`.
- The `Debouncer` and GPIO set-up are left out. Each iteration receives the
  debounced falling edges as `Buttons`.
- `while True` never ends. The model runs it over any finite list of
  iterations (`Iterate`, `Sign.Run`), which stops at a board reset.
- `network.fetch_data` and `network.get_local_time` are modelled by their
  outcomes (`Env.fetch`, `Env.syncSucceeds`). `datetime.now()` is the input
  `wallNow`. `time.monotonic()` is read several times per iteration, as the
  inputs in `Readings`.
- Which exception class a network failure raises is not modelled. All of the
  classes caught in `code.py:190` behave the same.
- `FetchFailed`, and a sync that does not succeed, stand only for the five
  exception classes caught at `code.py:190`. A `fetch_data` or
  `get_local_time` failure of any other class, such as a `MemoryError` or a
  `KeyError` from the JSON path, ends the program in the source and is left
  out.
- Errors that are not caught: a `KeyError` for a record without `time`
  (`code.py:50-51`) and an `IndexError` for an empty response
  (`code.py:48`). A direction key that is present with a JSON `null` value
  makes `stop_data.get('N', [])` return `None`, and iterating it raises
  `TypeError` (`code.py:50-51`); `StopData` only represents a list or an
  absent key. The same goes for a `time` that is present but not a
  string, such as a JSON `null`: `datetime.fromisoformat` (`logic.py:7`)
  raises `TypeError`, which `code.py:190` does not catch. All of these would
  end the program, and are left out. `Arrivals.TrainRecord` always has a time
  field, which is a valid timestamp or `None` for the caught `ValueError`.
- `datetime.fromisoformat` is not modelled as a string parser. Timestamps
  arrive parsed, or as `None` when they do not parse.
- Sub-second precision is left out. Timestamps are whole seconds, so the
  rounding is exact integer arithmetic rather than floating point.
- The `time.monotonic()` readings (`code.py:180`, `:183`, `:185`, `:189`,
  `:197`) are floats in the source and whole seconds in `Readings`. The
  strict comparisons with `UPDATE_DELAY` and `SYNC_TIME_DELAY` are kept, but a
  fraction of a second past the interval is not representable.
- Resilience.ReconnectActions: the outcome of the second `connect_AP`
  (`code.py:88`) is not an input, because it changes no state and is
  swallowed.
- `ssid` and `password` come from `os.getenv`. They are passed in as
  `Credentials`.
- `generate_train_bitmap.py` is not part of this model. It is an offline
  asset tool.
